/** The meal-plan routes of src/server/routes/meal_plan_items.py: list within a date range, create
    for a recipe the requester may see, get, partial update and delete. Each handler that writes
    commits its own transaction. */
module MealPlanItems {
  import opened Common
  import opened Models
  import opened Ordering
  import opened Query
  import opened Db
  import opened RowChecks
  import opened Storage
  import opened Routes

  /** The columns a meal-plan request may carry (the schemas leave out `id` and `user_id`). */
  const RequestFields: set<Field> := {RecipeId, Date, Servings, MealType}

  // ---------------------------------------------------------------- list

  /** Row `row` is dated within `[startDate, endDate]`, both ends included. */
  predicate InRange(row: Row, startDate: int, endDate: int) {
    var d := Lookup(row, Date);
    d.Some? && SqlLe(VInt(startDate), d.value) && SqlLe(d.value, VInt(endDate))
  }

  /** The meal-plan items the requester may see, dated within the range and holding every
      parameter given. */
  function ItemsListed(s: Store, user: Principal, startDate: int, endDate: int, params: map<Field, Value>): set<int> {
    set k | k in T(s, MealPlanItem) && Visible(s, user, MealPlanItem, T(s, MealPlanItem)[k])
              && InRange(T(s, MealPlanItem)[k], startDate, endDate) && ParamsHold(T(s, MealPlanItem)[k], params)
  }

  lemma RangeMatch(s: Store, user: Principal, startDate: int, endDate: int, params: map<Field, Value>, k: int)
    requires params.Keys <= RequestFields
    ensures var range := {AtLeast(Date, VInt(startDate)), AtMost(Date, VInt(endDate))};
      k in Matching(s, MealPlanItem, OwnerFilter(user) + range + EqConds(Given(params))) <==>
        k in T(s, MealPlanItem) && Visible(s, user, MealPlanItem, T(s, MealPlanItem)[k])
        && InRange(T(s, MealPlanItem)[k], startDate, endDate) && ParamsHold(T(s, MealPlanItem)[k], params)
  {
    var range := {AtLeast(Date, VInt(startDate)), AtMost(Date, VInt(endDate))};
    ParamsMatch(s, user, MealPlanItem, range, params, k);
    if k in T(s, MealPlanItem) {
      RangeHolds(s, T(s, MealPlanItem)[k], startDate, endDate);
    }
  }

  /** The two date conditions of the query say that the row lies within the range. */
  lemma RangeHolds(s: Store, row: Row, startDate: int, endDate: int)
    ensures Satisfies(s, MealPlanItem, row, {AtLeast(Date, VInt(startDate)), AtMost(Date, VInt(endDate))}) <==> InRange(row, startDate, endDate)
  {
    var range := {AtLeast(Date, VInt(startDate)), AtMost(Date, VInt(endDate))};
    assert Satisfies(s, MealPlanItem, row, range) <==>
      Holds(s, MealPlanItem, row, AtLeast(Date, VInt(startDate))) && Holds(s, MealPlanItem, row, AtMost(Date, VInt(endDate)));
  }

  lemma RangeMatches(s: Store, user: Principal, startDate: int, endDate: int, params: map<Field, Value>)
    requires params.Keys <= RequestFields
    ensures var range := {AtLeast(Date, VInt(startDate)), AtMost(Date, VInt(endDate))};
      Matching(s, MealPlanItem, OwnerFilter(user) + range + EqConds(Given(params))) == ItemsListed(s, user, startDate, endDate, params)
  {
    forall k {
      RangeMatch(s, user, startDate, endDate, params, k);
    }
  }

  /** `list_meal_plan_items`: the items the requester may see dated from `start_date` to
      `end_date` (both included), narrowed by every parameter given a value. The query has no
      ORDER BY, so the rows come in no particular order. */
  method ListMealPlanItems(db: Session, user: Principal, startDate: int, endDate: int, params: map<Field, Value>)
    returns (ks: seq<int>)
    requires params.Keys <= RequestFields
    ensures Enumerates(ks, ItemsListed(db.store, user, startDate, endDate, params))
  {
    var q := Where(SafeQuery(Select, MealPlanItem, user), {AtLeast(Date, VInt(startDate)), AtMost(Date, VInt(endDate))});
    q := FilterBy(q, params);
    RangeMatches(db.store, user, startDate, endDate, params);
    ks := Fetch(T(db.store, MealPlanItem), Matching(db.store, MealPlanItem, q.conds), None);
  }

  // ---------------------------------------------------------------- create

  /** A meal-plan item hanging off a recipe the requester may see is one the requester may see. */
  lemma OwnedThroughRecipe(s0: Store, s: Store, user: Principal, k: int, data: Row)
    requires RecipeId in data && data[RecipeId].VInt? && RowVisible(s0, user, Recipe, data[RecipeId].i)
    requires T(s, Recipe) == T(s0, Recipe)
    requires k in T(s, MealPlanItem) && Extends(T(s, MealPlanItem)[k], data)
    ensures Visible(s, user, MealPlanItem, T(s, MealPlanItem)[k])
  {
  }

  /** An item for a recipe the requester may see, filling every NOT NULL column, goes in under a
      free key. */
  lemma ItemInsertOk(s: Store, data: Row, next: int)
    requires Constraints(s) && data.Keys <= RequestFields && Fills(MealPlanItem, data)
    requires RecipeId in data && data[RecipeId].VInt? && data[RecipeId].i in T(s, Recipe)
    requires next !in T(s, MealPlanItem)
    ensures Insert(s, MealPlanItem, data, next).Ok?
  {
    ItemChecks(s, data);
    InsertOk(s, MealPlanItem, data, next);
  }

  lemma ItemChecks(s: Store, data: Row)
    requires data.Keys <= RequestFields
    requires RecipeId in data && data[RecipeId].VInt? && data[RecipeId].i in T(s, Recipe)
    ensures data.Keys <= Columns(MealPlanItem) && Id !in data
    ensures RowRefsOk(s, MealPlanItem, data) && RowUnique(s, MealPlanItem, data)
  {
  }

  /** `create_meal_plan_item`: the recipe named by `recipe_id` must be one the requester may
      see (NoResultFound otherwise); the new item holds the request's values and is committed. */
  method CreateMealPlanItem(db: Session, user: Principal, data: Row) returns (r: Result<int>)
    requires db.Valid()
    requires data.Keys <= RequestFields && RecipeId in data && data[RecipeId].VInt?
    modifies db
    ensures db.Valid()
    ensures r == Err(NoResultFound) <==> !RowVisible(old(db.store), user, Recipe, data[RecipeId].i)
    ensures r == Err(NoResultFound) ==> db.store == old(db.store) && db.committed == old(db.committed)
    ensures r.Ok? ==> RowAdded(T(old(db.store), MealPlanItem), T(db.store, MealPlanItem), r.value, data)
    ensures r.Ok? ==> Visible(db.store, user, MealPlanItem, T(db.store, MealPlanItem)[r.value])
    ensures r.Ok? ==> forall x: Model | x != MealPlanItem :: T(db.store, x) == T(old(db.store), x)
    ensures r.Ok? ==> db.committed == db.store
    ensures r.Err? && r != Err(NoResultFound) ==> r.error.IntegrityError? && db.store == old(db.committed) && db.committed == old(db.committed)
    ensures r.Ok? <==> RowVisible(old(db.store), user, Recipe, data[RecipeId].i) && Insert(old(db.store), MealPlanItem, data, old(db.nextId)).Ok?
    ensures && RowVisible(old(db.store), user, Recipe, data[RecipeId].i) && Fills(MealPlanItem, data)
            && old(db.nextId) !in T(old(db.store), MealPlanItem)
            ==> r.Ok?
  {
    var recipe := FindById(db, user, Recipe, data[RecipeId].i);
    if recipe.Err? {
      return Err(recipe.error);
    }
    ghost var s0 := db.store;
    if Fills(MealPlanItem, data) && db.nextId !in T(s0, MealPlanItem) {
      ItemInsertOk(s0, data, db.nextId);
    }
    r := AddAndCommit(db, MealPlanItem, data);
    if r.Ok? {
      OwnedThroughRecipe(s0, db.store, user, r.value, data);
    }
  }

  // ---------------------------------------------------------------- get, update, delete

  /** `get_meal_plan_item`. */
  method GetMealPlanItem(db: Session, user: Principal, id: int) returns (r: Result<int>)
    requires db.Valid()
    ensures r.Ok? <==> RowVisible(db.store, user, MealPlanItem, id)
    ensures r.Ok? ==> r.value == id
    ensures r.Err? ==> r.error == NoResultFound
  {
    r := FindById(db, user, MealPlanItem, id);
  }

  /** `update_meal_plan_item`: the request's values are set on the item and the rest of it is
      kept. The new `recipe_id` is not checked against the requester, unlike in
      `create_meal_plan_item`. */
  method UpdateMealPlanItem(db: Session, user: Principal, id: int, data: Row) returns (r: Result<int>)
    requires db.Valid()
    requires data.Keys <= RequestFields
    modifies db
    ensures db.Valid()
    ensures r == Err(NoResultFound) <==> !RowVisible(old(db.store), user, MealPlanItem, id)
    ensures r == Err(NoResultFound) ==> db.store == old(db.store) && db.committed == old(db.committed)
    ensures r.Ok? ==> r.value == id && id in T(old(db.store), MealPlanItem)
    ensures r.Ok? ==> T(db.store, MealPlanItem) == T(old(db.store), MealPlanItem)[id := T(old(db.store), MealPlanItem)[id] + data]
    ensures r.Ok? ==> forall x: Model | x != MealPlanItem :: T(db.store, x) == T(old(db.store), x)
    ensures r.Ok? ==> db.committed == db.store
    ensures r.Err? && r != Err(NoResultFound) ==> r.error.IntegrityError? && db.store == old(db.committed) && db.committed == old(db.committed)
    ensures r.Ok? <==> && RowVisible(old(db.store), user, MealPlanItem, id)
                       && Constraints(With(old(db.store), MealPlanItem, T(old(db.store), MealPlanItem)[id := T(old(db.store), MealPlanItem)[id] + data]))
  {
    var found := FindById(db, user, MealPlanItem, id);
    if found.Err? {
      return Err(found.error);
    }
    var row := SetAttrs(T(db.store, MealPlanItem)[id], data);
    var saved := SaveAndCommit(db, MealPlanItem, id, row);
    if saved.Failed? {
      return Err(saved.error);
    }
    r := Ok(id);
  }

  /** `delete_meal_plan_item`: the item goes and nothing else does. */
  method DeleteMealPlanItem(db: Session, user: Principal, id: int) returns (r: Result<int>)
    requires db.Valid()
    modifies db
    ensures db.Valid()
    ensures r.Ok? <==> RowVisible(old(db.store), user, MealPlanItem, id)
    ensures r.Err? ==> r.error == NoResultFound && db.store == old(db.store) && db.committed == old(db.committed)
    ensures r.Ok? ==> r.value == id && T(db.store, MealPlanItem) == Without(T(old(db.store), MealPlanItem), {id})
    ensures r.Ok? ==> forall x: Model | x != MealPlanItem :: T(db.store, x) == T(old(db.store), x)
    ensures r.Ok? ==> db.committed == db.store
  {
    var found := FindById(db, user, MealPlanItem, id);
    if found.Err? {
      return Err(found.error);
    }
    db.Remove(MealPlanItem, id);
    db.Commit();
    r := Ok(id);
  }
}
