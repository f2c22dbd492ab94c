/** What the schema of src/server/storage/models.py guarantees: deleting a row (with everything it
    cascades to) keeps the store's constraints, removes every row that depended on the deleted
    one, and every row's derived `user_id` names an existing user. */
module ModelFacts {
  import opened Common
  import opened Models

  /** `a` holds some of the rows of `b`, unchanged. */
  predicate SubTable(a: Table, b: Table) {
    forall k | k in a :: k in b && a[k] == b[k]
  }

  /** A store obtained from `s` by deleting rows only. */
  predicate Shrinks(r: Store, s: Store) {
    forall m: Model :: SubTable(T(r, m), T(s, m))
  }

  /** Every table of a store that meets the constraints is shaped. */
  lemma TablesShaped(s: Store, m: Model)
    requires Constraints(s)
    ensures TableShaped(s, m)
  {
    match m {
      case User => assert TableOk(s, User);
      case Recipe => assert TableOk(s, Recipe);
      case Tag => assert TableOk(s, Tag);
      case RecipeTagAssoc => assert TableOk(s, RecipeTagAssoc);
      case Ingredient => assert TableOk(s, Ingredient);
      case Step => assert TableOk(s, Step);
      case MealPlanItem => assert TableOk(s, MealPlanItem);
      case GroceryList => assert TableOk(s, GroceryList);
      case GroceryListItem => assert TableOk(s, GroceryListItem);
    }
  }

  /** Deleting rows keeps every row shaped and every unique key unique. */
  lemma ShrinkKeepsShape(s: Store, r: Store)
    requires Constraints(s)
    requires Shrinks(r, s)
    ensures forall m: Model :: TableShaped(r, m)
    ensures UniqueOk(r)
  {
    forall m: Model ensures TableShaped(r, m) {
      assert SubTable(T(r, m), T(s, m));
      TablesShaped(s, m);
    }
    assert SubTable(T(r, User), T(s, User));
    assert SubTable(T(r, Tag), T(s, Tag));
    assert SubTable(T(r, RecipeTagAssoc), T(s, RecipeTagAssoc));
  }

  /** The references of the kept rows of `m` still resolve once the parent rows `ids` are gone,
      provided no kept row refers to them. */
  lemma ResolvesAfter(s: Store, r: Store, m: Model, f: Field, parent: Model, ids: set<int>)
    requires AllResolve(s, m, f, parent)
    requires SubTable(T(r, m), T(s, m))
    requires forall j | j in T(r, m) :: !RefersTo(T(r, m)[j], f, ids)
    requires forall p :: p in T(r, parent) <==> p in T(s, parent) && p !in ids
    ensures AllResolve(r, m, f, parent)
  {
    forall j | j in T(r, m) ensures f in T(r, m)[j] && Resolves(r, T(r, m)[j][f], parent) {
      assert T(r, m)[j] == T(s, m)[j];
    }
  }

  /** Special case of `ResolvesAfter`: the parent table is untouched. */
  lemma ResolvesKept(s: Store, r: Store, m: Model, f: Field, parent: Model)
    requires AllResolve(s, m, f, parent)
    requires SubTable(T(r, m), T(s, m))
    requires T(r, parent) == T(s, parent)
    ensures AllResolve(r, m, f, parent)
  {
    ResolvesAfter(s, r, m, f, parent, {});
  }

  /** Replacing one table by some of its rows deletes rows only. */
  lemma WithShrinks(s: Store, m: Model, t: Table)
    requires SubTable(t, T(s, m))
    ensures Shrinks(With(s, m, t), s)
  {
    var r := With(s, m, t);
    forall m': Model ensures SubTable(T(r, m'), T(s, m')) {
      match m'
      case User => case Recipe => case Tag => case RecipeTagAssoc => case Ingredient =>
      case Step => case MealPlanItem => case GroceryList => case GroceryListItem =>
    }
  }

  /** Assembles `Constraints` from its parts. */
  lemma ConstraintsFrom(r: Store)
    requires forall m: Model :: TableShaped(r, m)
    requires UniqueOk(r)
    requires RefsOk(r, Recipe) && RefsOk(r, Tag) && RefsOk(r, GroceryList) && RefsOk(r, RecipeTagAssoc)
    requires RefsOk(r, Ingredient) && RefsOk(r, Step) && RefsOk(r, MealPlanItem) && RefsOk(r, GroceryListItem)
    ensures Constraints(r)
  {
    assert TableShaped(r, User);
    assert TableShaped(r, Recipe);
    assert TableShaped(r, Tag);
    assert TableShaped(r, RecipeTagAssoc);
    assert TableShaped(r, Ingredient);
    assert TableShaped(r, Step);
    assert TableShaped(r, MealPlanItem);
    assert TableShaped(r, GroceryList);
    assert TableShaped(r, GroceryListItem);
  }

  lemma WithoutShrinks(t: Table, ids: set<int>)
    ensures SubTable(Without(t, ids), t)
  {
  }

  lemma DropRefsShrinks(t: Table, f: Field, ids: set<int>)
    ensures SubTable(DropRefs(t, f, ids), t)
  {
  }


  lemma DeleteRecipesShrinks(s: Store, ids: set<int>)
    ensures Shrinks(DeleteRecipes(s, ids), s)
  {
    var r := DeleteRecipes(s, ids);
    forall m: Model ensures SubTable(T(r, m), T(s, m)) {
      match m
      case Recipe => WithoutShrinks(T(s, Recipe), ids);
      case Ingredient => DropRefsShrinks(T(s, Ingredient), RecipeId, ids);
      case Step => DropRefsShrinks(T(s, Step), RecipeId, ids);
      case MealPlanItem => DropRefsShrinks(T(s, MealPlanItem), RecipeId, ids);
      case RecipeTagAssoc => DropRefsShrinks(T(s, RecipeTagAssoc), RecipeId, ids);
      case _ =>
    }
  }

  lemma DeleteTagsShrinks(s: Store, ids: set<int>)
    ensures Shrinks(DeleteTags(s, ids), s)
  {
    var r := DeleteTags(s, ids);
    forall m: Model ensures SubTable(T(r, m), T(s, m)) {
      match m
      case Tag => WithoutShrinks(T(s, Tag), ids);
      case RecipeTagAssoc => DropRefsShrinks(T(s, RecipeTagAssoc), TagId, ids);
      case _ =>
    }
  }

  lemma DeleteGroceryListsShrinks(s: Store, ids: set<int>)
    ensures Shrinks(DeleteGroceryLists(s, ids), s)
  {
    var r := DeleteGroceryLists(s, ids);
    forall m: Model ensures SubTable(T(r, m), T(s, m)) {
      match m
      case GroceryList => WithoutShrinks(T(s, GroceryList), ids);
      case GroceryListItem => DropRefsShrinks(T(s, GroceryListItem), GroceryListId, ids);
      case _ =>
    }
  }


  lemma DeleteRecipesKeepsConstraints(s: Store, ids: set<int>)
    requires Constraints(s)
    ensures Constraints(DeleteRecipes(s, ids))
  {
    var r := DeleteRecipes(s, ids);
    DeleteRecipesShrinks(s, ids);
    ShrinkKeepsShape(s, r);
    DeleteRecipesRefs(s, ids, Recipe);
    DeleteRecipesRefs(s, ids, Tag);
    DeleteRecipesRefs(s, ids, GroceryList);
    DeleteRecipesRefs(s, ids, RecipeTagAssoc);
    DeleteRecipesRefs(s, ids, Ingredient);
    DeleteRecipesRefs(s, ids, Step);
    DeleteRecipesRefs(s, ids, MealPlanItem);
    DeleteRecipesRefs(s, ids, GroceryListItem);
    ConstraintsFrom(r);
  }

  /** The references of each class still resolve after the deletion. */
  lemma DeleteRecipesRefs(s: Store, ids: set<int>, m: Model)
    requires RefsOk(s, m)
    ensures RefsOk(DeleteRecipes(s, ids), m)
  {
    var r := DeleteRecipes(s, ids);
    DeleteRecipesShrinks(s, ids);
    match m
    case Recipe => ResolvesKept(s, r, Recipe, UserId, User);
    case Tag => ResolvesKept(s, r, Tag, UserId, User);
    case GroceryList => ResolvesKept(s, r, GroceryList, UserId, User);
    case RecipeTagAssoc =>
      ResolvesAfter(s, r, RecipeTagAssoc, RecipeId, Recipe, ids);
      ResolvesKept(s, r, RecipeTagAssoc, TagId, Tag);
    case Ingredient => ResolvesAfter(s, r, Ingredient, RecipeId, Recipe, ids);
    case Step => ResolvesAfter(s, r, Step, RecipeId, Recipe, ids);
    case MealPlanItem => ResolvesAfter(s, r, MealPlanItem, RecipeId, Recipe, ids);
    case GroceryListItem => ResolvesKept(s, r, GroceryListItem, GroceryListId, GroceryList);
    case User =>
  }

  lemma DeleteTagsKeepsConstraints(s: Store, ids: set<int>)
    requires Constraints(s)
    ensures Constraints(DeleteTags(s, ids))
  {
    var r := DeleteTags(s, ids);
    DeleteTagsShrinks(s, ids);
    ShrinkKeepsShape(s, r);
    DeleteTagsRefs(s, ids, Recipe);
    DeleteTagsRefs(s, ids, Tag);
    DeleteTagsRefs(s, ids, GroceryList);
    DeleteTagsRefs(s, ids, RecipeTagAssoc);
    DeleteTagsRefs(s, ids, Ingredient);
    DeleteTagsRefs(s, ids, Step);
    DeleteTagsRefs(s, ids, MealPlanItem);
    DeleteTagsRefs(s, ids, GroceryListItem);
    ConstraintsFrom(r);
  }

  /** The references of each class still resolve after the deletion. */
  lemma DeleteTagsRefs(s: Store, ids: set<int>, m: Model)
    requires RefsOk(s, m)
    ensures RefsOk(DeleteTags(s, ids), m)
  {
    var r := DeleteTags(s, ids);
    DeleteTagsShrinks(s, ids);
    match m
    case Recipe => ResolvesKept(s, r, Recipe, UserId, User);
    case Tag => ResolvesKept(s, r, Tag, UserId, User);
    case GroceryList => ResolvesKept(s, r, GroceryList, UserId, User);
    case RecipeTagAssoc =>
      ResolvesKept(s, r, RecipeTagAssoc, RecipeId, Recipe);
      ResolvesAfter(s, r, RecipeTagAssoc, TagId, Tag, ids);
    case Ingredient => ResolvesKept(s, r, Ingredient, RecipeId, Recipe);
    case Step => ResolvesKept(s, r, Step, RecipeId, Recipe);
    case MealPlanItem => ResolvesKept(s, r, MealPlanItem, RecipeId, Recipe);
    case GroceryListItem => ResolvesKept(s, r, GroceryListItem, GroceryListId, GroceryList);
    case User =>
  }

  lemma DeleteGroceryListsKeepsConstraints(s: Store, ids: set<int>)
    requires Constraints(s)
    ensures Constraints(DeleteGroceryLists(s, ids))
  {
    var r := DeleteGroceryLists(s, ids);
    DeleteGroceryListsShrinks(s, ids);
    ShrinkKeepsShape(s, r);
    DeleteGroceryListsRefs(s, ids, Recipe);
    DeleteGroceryListsRefs(s, ids, Tag);
    DeleteGroceryListsRefs(s, ids, GroceryList);
    DeleteGroceryListsRefs(s, ids, RecipeTagAssoc);
    DeleteGroceryListsRefs(s, ids, Ingredient);
    DeleteGroceryListsRefs(s, ids, Step);
    DeleteGroceryListsRefs(s, ids, MealPlanItem);
    DeleteGroceryListsRefs(s, ids, GroceryListItem);
    ConstraintsFrom(r);
  }

  /** The references of each class still resolve after the deletion. */
  lemma DeleteGroceryListsRefs(s: Store, ids: set<int>, m: Model)
    requires RefsOk(s, m)
    ensures RefsOk(DeleteGroceryLists(s, ids), m)
  {
    var r := DeleteGroceryLists(s, ids);
    DeleteGroceryListsShrinks(s, ids);
    match m
    case Recipe => ResolvesKept(s, r, Recipe, UserId, User);
    case Tag => ResolvesKept(s, r, Tag, UserId, User);
    case GroceryList => ResolvesKept(s, r, GroceryList, UserId, User);
    case RecipeTagAssoc =>
      ResolvesKept(s, r, RecipeTagAssoc, RecipeId, Recipe);
      ResolvesKept(s, r, RecipeTagAssoc, TagId, Tag);
    case Ingredient => ResolvesKept(s, r, Ingredient, RecipeId, Recipe);
    case Step => ResolvesKept(s, r, Step, RecipeId, Recipe);
    case MealPlanItem => ResolvesKept(s, r, MealPlanItem, RecipeId, Recipe);
    case GroceryListItem => ResolvesAfter(s, r, GroceryListItem, GroceryListId, GroceryList, ids);
    case User =>
  }

  /** The classes no other class refers to. */
  predicate Leaf(m: Model) {
    m in {RecipeTagAssoc, Ingredient, Step, MealPlanItem, GroceryListItem}
  }

  /** Removing a row of a class no other class refers to. */
  lemma DeleteLeafKeepsConstraints(s: Store, m: Model, k: int)
    requires Constraints(s)
    requires Leaf(m)
    ensures Constraints(With(s, m, Without(T(s, m), {k})))
  {
    WithoutShrinks(T(s, m), {k});
    LeafShrinkKeepsConstraints(s, m, Without(T(s, m), {k}));
  }

  /** Removing any rows of a class no other class refers to. */
  lemma LeafShrinkKeepsConstraints(s: Store, m: Model, t: Table)
    requires Constraints(s)
    requires Leaf(m) && SubTable(t, T(s, m))
    ensures Constraints(With(s, m, t))
  {
    var r := With(s, m, t);
    WithShrinks(s, m, t);
    ShrinkKeepsShape(s, r);
    LeafShrinkRefs(s, m, t, Recipe);
    LeafShrinkRefs(s, m, t, Tag);
    LeafShrinkRefs(s, m, t, GroceryList);
    LeafShrinkRefs(s, m, t, RecipeTagAssoc);
    LeafShrinkRefs(s, m, t, Ingredient);
    LeafShrinkRefs(s, m, t, Step);
    LeafShrinkRefs(s, m, t, MealPlanItem);
    LeafShrinkRefs(s, m, t, GroceryListItem);
    ConstraintsFrom(r);
  }

  /** The references of each class still resolve once rows of a leaf class are gone. */
  lemma LeafShrinkRefs(s: Store, m: Model, t: Table, x: Model)
    requires RefsOk(s, x)
    requires Leaf(m) && SubTable(t, T(s, m))
    ensures RefsOk(With(s, m, t), x)
  {
    var r := With(s, m, t);
    WithShrinks(s, m, t);
    match x
    case Recipe => ResolvesKept(s, r, Recipe, UserId, User);
    case Tag => ResolvesKept(s, r, Tag, UserId, User);
    case GroceryList => ResolvesKept(s, r, GroceryList, UserId, User);
    case RecipeTagAssoc =>
      ResolvesKept(s, r, RecipeTagAssoc, RecipeId, Recipe);
      ResolvesKept(s, r, RecipeTagAssoc, TagId, Tag);
    case Ingredient => ResolvesKept(s, r, Ingredient, RecipeId, Recipe);
    case Step => ResolvesKept(s, r, Step, RecipeId, Recipe);
    case MealPlanItem => ResolvesKept(s, r, MealPlanItem, RecipeId, Recipe);
    case GroceryListItem => ResolvesKept(s, r, GroceryListItem, GroceryListId, GroceryList);
    case User =>
  }

  /** Deleting a user once its recipes, tags and grocery lists are gone. */
  lemma DeleteUserKeepsConstraints(s: Store, s3: Store, k: int)
    requires Constraints(s3)
    requires T(s3, User) == T(s, User)
    requires forall j | j in T(s3, Recipe) :: !RefersTo(T(s3, Recipe)[j], UserId, {k})
    requires forall j | j in T(s3, Tag) :: !RefersTo(T(s3, Tag)[j], UserId, {k})
    requires forall j | j in T(s3, GroceryList) :: !RefersTo(T(s3, GroceryList)[j], UserId, {k})
    ensures Constraints(With(s3, User, Without(T(s, User), {k})))
  {
    var r := With(s3, User, Without(T(s, User), {k}));
    WithShrinks(s3, User, Without(T(s, User), {k}));
    ShrinkKeepsShape(s3, r);
    DeleteUserRefs(s, s3, k, Recipe);
    DeleteUserRefs(s, s3, k, Tag);
    DeleteUserRefs(s, s3, k, GroceryList);
    DeleteUserRefs(s, s3, k, RecipeTagAssoc);
    DeleteUserRefs(s, s3, k, Ingredient);
    DeleteUserRefs(s, s3, k, Step);
    DeleteUserRefs(s, s3, k, MealPlanItem);
    DeleteUserRefs(s, s3, k, GroceryListItem);
    ConstraintsFrom(r);
  }

  /** The references of each class still resolve once the user is gone. */
  lemma DeleteUserRefs(s: Store, s3: Store, k: int, m: Model)
    requires RefsOk(s3, m)
    requires T(s3, User) == T(s, User)
    requires forall j | j in T(s3, Recipe) :: !RefersTo(T(s3, Recipe)[j], UserId, {k})
    requires forall j | j in T(s3, Tag) :: !RefersTo(T(s3, Tag)[j], UserId, {k})
    requires forall j | j in T(s3, GroceryList) :: !RefersTo(T(s3, GroceryList)[j], UserId, {k})
    ensures RefsOk(With(s3, User, Without(T(s, User), {k})), m)
  {
    var r := With(s3, User, Without(T(s, User), {k}));
    WithShrinks(s3, User, Without(T(s, User), {k}));
    match m
    case Recipe => ResolvesAfter(s3, r, Recipe, UserId, User, {k});
    case Tag => ResolvesAfter(s3, r, Tag, UserId, User, {k});
    case GroceryList => ResolvesAfter(s3, r, GroceryList, UserId, User, {k});
    case RecipeTagAssoc =>
      ResolvesKept(s3, r, RecipeTagAssoc, RecipeId, Recipe);
      ResolvesKept(s3, r, RecipeTagAssoc, TagId, Tag);
    case Ingredient => ResolvesKept(s3, r, Ingredient, RecipeId, Recipe);
    case Step => ResolvesKept(s3, r, Step, RecipeId, Recipe);
    case MealPlanItem => ResolvesKept(s3, r, MealPlanItem, RecipeId, Recipe);
    case GroceryListItem => ResolvesKept(s3, r, GroceryListItem, GroceryListId, GroceryList);
    case User =>
  }

  /** Deleting a user: its recipes, tags and grocery lists go first, then the user row. */
  lemma DeleteUserCascadeKeepsConstraints(s: Store, k: int)
    requires Constraints(s)
    ensures Constraints(DeleteRow(s, User, k))
  {
    var R := RefKeys(T(s, Recipe), UserId, k);
    var G := RefKeys(T(s, Tag), UserId, k);
    var L := RefKeys(T(s, GroceryList), UserId, k);
    var s1 := DeleteRecipes(s, R);
    DeleteRecipesKeepsConstraints(s, R);
    var s2 := DeleteTags(s1, G);
    DeleteTagsKeepsConstraints(s1, G);
    var s3 := DeleteGroceryLists(s2, L);
    DeleteGroceryListsKeepsConstraints(s2, L);
    assert T(s3, User) == T(s, User);
    assert T(s3, Recipe) == Without(T(s, Recipe), R);
    assert T(s3, Tag) == Without(T(s, Tag), G);
    assert T(s3, GroceryList) == Without(T(s, GroceryList), L);
    DeleteUserKeepsConstraints(s, s3, k);
    assert DeleteRow(s, User, k) == With(s3, User, Without(T(s, User), {k}));
  }

  /** `ondelete="CASCADE"` and `delete-orphan` together keep the store consistent: deleting any
      row leaves no dangling foreign key, and the deleted row is gone. */
  lemma DeleteRowKeepsConstraints(s: Store, m: Model, k: int)
    requires Constraints(s)
    ensures Constraints(DeleteRow(s, m, k))
    ensures k !in T(DeleteRow(s, m, k), m)
  {
    DeleteRowGone(s, m, k);
    match m
    case User => DeleteUserCascadeKeepsConstraints(s, k);
    case Recipe => DeleteRecipesKeepsConstraints(s, {k});
    case Tag => DeleteTagsKeepsConstraints(s, {k});
    case GroceryList => DeleteGroceryListsKeepsConstraints(s, {k});
    case _ => DeleteLeafKeepsConstraints(s, m, k);
  }

  /** The deleted row is gone. */
  lemma DeleteRowGone(s: Store, m: Model, k: int)
    ensures k !in T(DeleteRow(s, m, k), m)
  {
  }

  /** Deleting a recipe removes exactly the rows that hang off it and touches no other table. */
  lemma DeleteRecipeScope(s: Store, k: int)
    ensures var r := DeleteRow(s, Recipe, k);
      && (forall j :: j in T(r, Recipe) <==> j in T(s, Recipe) && j != k)
      && (forall j :: j in T(r, Ingredient) <==> j in T(s, Ingredient) && !RefersTo(T(s, Ingredient)[j], RecipeId, {k}))
      && (forall j :: j in T(r, Step) <==> j in T(s, Step) && !RefersTo(T(s, Step)[j], RecipeId, {k}))
      && (forall j :: j in T(r, MealPlanItem) <==> j in T(s, MealPlanItem) && !RefersTo(T(s, MealPlanItem)[j], RecipeId, {k}))
      && (forall j :: j in T(r, RecipeTagAssoc) <==> j in T(s, RecipeTagAssoc) && !RefersTo(T(s, RecipeTagAssoc)[j], RecipeId, {k}))
      && T(r, User) == T(s, User) && T(r, Tag) == T(s, Tag) && T(r, GroceryList) == T(s, GroceryList)
      && T(r, GroceryListItem) == T(s, GroceryListItem)
  {
  }

  /** Deleting a grocery list removes its items and nothing else. */
  lemma DeleteGroceryListScope(s: Store, k: int)
    ensures var r := DeleteRow(s, GroceryList, k);
      && (forall j :: j in T(r, GroceryList) <==> j in T(s, GroceryList) && j != k)
      && (forall j :: j in T(r, GroceryListItem) <==> j in T(s, GroceryListItem) && !RefersTo(T(s, GroceryListItem)[j], GroceryListId, {k}))
      && T(r, User) == T(s, User) && T(r, Recipe) == T(s, Recipe) && T(r, Tag) == T(s, Tag) && T(r, RecipeTagAssoc) == T(s, RecipeTagAssoc)
      && T(r, Ingredient) == T(s, Ingredient) && T(r, Step) == T(s, Step) && T(r, MealPlanItem) == T(s, MealPlanItem)
  {
  }

  /** Deleting a tag removes its associations and nothing else. */
  lemma DeleteTagScope(s: Store, k: int)
    ensures var r := DeleteRow(s, Tag, k);
      && (forall j :: j in T(r, Tag) <==> j in T(s, Tag) && j != k)
      && (forall j :: j in T(r, RecipeTagAssoc) <==> j in T(s, RecipeTagAssoc) && !RefersTo(T(s, RecipeTagAssoc)[j], TagId, {k}))
      && T(r, User) == T(s, User) && T(r, Recipe) == T(s, Recipe) && T(r, Ingredient) == T(s, Ingredient) && T(r, Step) == T(s, Step)
      && T(r, MealPlanItem) == T(s, MealPlanItem) && T(r, GroceryList) == T(s, GroceryList)
      && T(r, GroceryListItem) == T(s, GroceryListItem)
  {
  }

  /** Every row but an association has an owner, and the owner is an existing user: directly
      (`User.user_id` is its own id, Recipe, Tag and GroceryList store it) or through the
      association proxy of its parent recipe or grocery list. */
  lemma OwnerExists(s: Store, m: Model, j: int)
    requires Constraints(s)
    requires j in T(s, m) && m != RecipeTagAssoc
    ensures Owner(s, m, T(s, m)[j]).Some?
    ensures Resolves(s, Owner(s, m, T(s, m)[j]).value, User)
    ensures m == User ==> Owner(s, m, T(s, m)[j]) == Some(VInt(j))
  {
    assert TableShaped(s, User) && RefsOk(s, m) && RefsOk(s, Recipe) && RefsOk(s, GroceryList);
    OwnerFrom(s, m, j);
  }

  /** The case analysis behind `OwnerExists`, from the constraints it needs. */
  lemma OwnerFrom(s: Store, m: Model, j: int)
    requires TableShaped(s, User) && RefsOk(s, m) && RefsOk(s, Recipe) && RefsOk(s, GroceryList)
    requires j in T(s, m) && m != RecipeTagAssoc
    ensures Owner(s, m, T(s, m)[j]).Some?
    ensures Resolves(s, Owner(s, m, T(s, m)[j]).value, User)
    ensures m == User ==> Owner(s, m, T(s, m)[j]) == Some(VInt(j))
  {
    match m
    case User => OwnerOfUser(s, j);
    case Recipe => OwnerStored(s, Recipe, j);
    case Tag => OwnerStored(s, Tag, j);
    case GroceryList => OwnerStored(s, GroceryList, j);
    case Ingredient => OwnerThrough(s, Ingredient, j, RecipeId, Recipe);
    case Step => OwnerThrough(s, Step, j, RecipeId, Recipe);
    case MealPlanItem => OwnerThrough(s, MealPlanItem, j, RecipeId, Recipe);
    case GroceryListItem => OwnerThrough(s, GroceryListItem, j, GroceryListId, GroceryList);
  }

  /** A user is its own owner. */
  lemma OwnerOfUser(s: Store, j: int)
    requires j in T(s, User) && TableShaped(s, User)
    ensures Owner(s, User, T(s, User)[j]) == Some(VInt(j))
  {
    assert Id in T(s, User)[j] && T(s, User)[j][Id] == VInt(j);
  }

  /** A recipe, tag or grocery list stores its owner, an existing user. */
  lemma OwnerStored(s: Store, m: Model, j: int)
    requires (m == Recipe || m == Tag || m == GroceryList) && j in T(s, m) && AllResolve(s, m, UserId, User)
    ensures Owner(s, m, T(s, m)[j]).Some? && Resolves(s, Owner(s, m, T(s, m)[j]).value, User)
  {
    assert UserId in T(s, m)[j] && Resolves(s, T(s, m)[j][UserId], User);
  }

  /** The owner read through the parent a row refers to is the parent's `user_id`, an existing
      user. */
  lemma OwnerThrough(s: Store, m: Model, j: int, fk: Field, parent: Model)
    requires (m == Ingredient || m == Step || m == MealPlanItem || m == GroceryListItem) && (parent == Recipe || parent == GroceryList)
    requires j in T(s, m) && AllResolve(s, m, fk, parent) && AllResolve(s, parent, UserId, User)
    ensures Through(s, T(s, m)[j], fk, parent).Some?
    ensures Resolves(s, Through(s, T(s, m)[j], fk, parent).value, User)
  {
    var row := T(s, m)[j];
    assert fk in row && Resolves(s, row[fk], parent);
    var p := row[fk].i;
    assert UserId in T(s, parent)[p] && Resolves(s, T(s, parent)[p][UserId], User);
    assert Through(s, row, fk, parent) == Some(T(s, parent)[p][UserId]);
  }

  /** A store without user `k` has no row owned by `k`. */
  lemma NothingOwnedBy(r: Store, k: int)
    requires Constraints(r)
    requires k !in T(r, User)
    ensures forall m: Model, j | j in T(r, m) :: Owner(r, m, T(r, m)[j]) != Some(VInt(k))
  {
    forall m: Model, j | j in T(r, m) ensures Owner(r, m, T(r, m)[j]) != Some(VInt(k)) {
      if m != RecipeTagAssoc {
        OwnerExists(r, m, j);
      }
    }
  }

  /** After deleting a user, no remaining row of any class is owned by that user. */
  lemma DeleteUserLeavesNothingOwned(s: Store, k: int)
    requires Constraints(s)
    ensures var r := DeleteRow(s, User, k);
      forall m: Model, j | j in T(r, m) :: Owner(r, m, T(r, m)[j]) != Some(VInt(k))
  {
    DeleteRowKeepsConstraints(s, User, k);
    NothingOwnedBy(DeleteRow(s, User, k), k);
  }

  /** `unique=True` on `User.username`: at most one user has a given name. */
  lemma UsernameIdentifies(s: Store, j1: int, j2: int)
    requires Constraints(s)
    requires j1 in T(s, User) && j2 in T(s, User)
    requires T(s, User)[j1][Username] == T(s, User)[j2][Username]
    ensures j1 == j2
  {
    assert TableOk(s, User);
  }
}
