/** The route code where it names something that does not exist, modelled as written: the
    attribute and keyword names the code uses, looked up the way Python and SQLAlchemy look them
    up, and what each such request then does. The other modules model the evident intent; each
    method here ends in the error the code raises, and the session middleware rolls the request
    back (`App.SessionMiddleware`). */
module AsWritten {
  import opened Common
  import opened Text
  import opened Models
  import opened RowChecks
  import opened Query
  import opened Db
  import opened Storage
  import opened GroceryItems
  import opened GroceryLists
  import opened Recipes
  import opened Users
  import opened App
  import Schema

  // ---------------------------------------------------------------- attribute names

  /** The attribute a Python name stands for in models.py, whichever class declares it; None for
      a name no mapped class uses. */
  function FieldOf(name: string): Option<Field> {
    match name
    case "id" => Some(Id)
    case "username" => Some(Username)
    case "hashed_password" => Some(HashedPassword)
    case "role" => Some(Role)
    case "user_id" => Some(UserId)
    case "name" => Some(Name)
    case "image_url" => Some(ImageUrl)
    case "source" => Some(Source)
    case "servings" => Some(Servings)
    case "servings_type" => Some(ServingsType)
    case "prep_time" => Some(PrepTime)
    case "cook_time" => Some(CookTime)
    case "description" => Some(Description)
    case "nutrition" => Some(Nutrition)
    case "favorite" => Some(Favorite)
    case "recipe_id" => Some(RecipeId)
    case "tag_id" => Some(TagId)
    case "quantity" => Some(Quantity)
    case "unit" => Some(Unit)
    case "comment" => Some(Comment)
    case "input" => Some(Input)
    case "position" => Some(Position)
    case "text" => Some(Text)
    case "date" => Some(Date)
    case "meal_type" => Some(MealType)
    case "extra_items" => Some(ExtraItems)
    case "grocery_list_id" => Some(GroceryListId)
    case "active" => Some(Active)
    case "recipe_name" => Some(RecipeName)
    case "ingredients" => Some(Ingredients)
    case "steps" => Some(Steps)
    case "tags" => Some(Tags)
    case "recipes" => Some(Recipes)
    case "grocery_list_items" => Some(GroceryListItems)
    case "recipe" => Some(ParentRecipe)
    case "grocery_list" => Some(ParentList)
    case _ => None
  }

  /** The attributes of a mapped class: its columns, its list relationships, its many-to-one
      relationship to a parent, and `user_id` (a column, the synonym of `User.id`, or the
      association proxy through the parent). */
  function Attributes(m: Model): set<Field> {
    Columns(m) + ListRelations(m)
    + (if m == Ingredient || m == Step || m == MealPlanItem then {ParentRecipe} else {})
    + (if m == GroceryListItem then {ParentList} else {})
    + (if m != RecipeTagAssoc then {UserId} else {})
  }

  /** `getattr(obj, name)` on an instance of `m`, and equally a keyword of its constructor or of
      `filter_by`: the attribute of `m` called `name`, None (AttributeError, TypeError or
      InvalidRequestError) when `m` has no attribute of that name. */
  function AttrNamed(m: Model, name: string): (r: Option<Field>)
    ensures r.Some? <==> FieldOf(name).Some? && FieldOf(name).value in Attributes(m)
    ensures r.Some? ==> r == FieldOf(name)
  {
    match FieldOf(name)
    case Some(f) => if f in Attributes(m) then Some(f) else None
    case None => None
  }

  /** Recipe has `ingredients`, not `ingredient`. */
  lemma NoIngredientAttribute()
    ensures AttrNamed(Recipe, "ingredient").None? && AttrNamed(Recipe, "ingredients") == Some(Ingredients)
  {
  }

  /** Recipe has no `thumbnail_url` (its picture is `image_url`). */
  lemma NoThumbnailAttribute()
    ensures AttrNamed(Recipe, "thumbnail_url").None? && AttrNamed(Recipe, "image_url") == Some(ImageUrl)
  {
  }

  /** Recipe has no `step_texts`: the step texts are a request field, not an attribute. */
  lemma NoStepTextsAttribute()
    ensures AttrNamed(Recipe, "step_texts").None? && AttrNamed(Recipe, "steps") == Some(Steps)
  {
  }

  /** Tag has no `recipe_id`; the association class has it, and `tag_id`. */
  lemma NoTagRecipeAttribute()
    ensures AttrNamed(Tag, "recipe_id").None?
    ensures AttrNamed(RecipeTagAssoc, "recipe_id") == Some(RecipeId) && AttrNamed(RecipeTagAssoc, "tag_id") == Some(TagId)
  {
  }

  /** User has no `user`; its key is `id`. */
  lemma NoUserAttribute()
    ensures AttrNamed(User, "user").None? && AttrNamed(User, "id") == Some(Id)
  {
  }

  /** A Python error other than an HTTPException is raised through the middleware, which rolls
      the request back. */
  lemma RaisedRollsBack<T>(r: Result<T>, okStatus: int)
    ensures r.Err? && !r.error.HttpError? ==> !Commits(ReplyOf(r, okStatus))
  {
  }

  // ---------------------------------------------------------------- grocery_lists.py

  /** `create_grocery_list` as written: the entries are listed and the list is created, then the
      first entry's `meal_plan_item.recipe.ingredient` raises AttributeError, so only a request
      without an entry in the date range gets through (with its extra items alone). */
  method CreateGroceryListAsWritten(sm: StorageManager, startDate: int, endDate: int, extraItems: Option<string>)
    returns (r: Result<int>, ghost plans: seq<int>)
    requires sm.db.Valid()
    modifies sm.db
    ensures sm.db.Valid()
    ensures sm.db.committed == old(sm.db.committed) && sm.db.open == old(sm.db.open)
    ensures Enumerates(plans, Matching(old(sm.db.store), MealPlanItem, ListConds(sm.user, DateRange(startDate, endDate))))
    ensures plans != [] ==> r.Err?
    ensures plans != [] && sm.user.id in T(old(sm.db.store), User) && Ahead(old(sm.db.store), old(sm.db.nextId))
            ==> r == Err(NoSuchAttribute)
    ensures r.Err? ==> !Commits(ReplyOf(r, 200))
    ensures plans == [] && sm.user.id in T(old(sm.db.store), User) && Ahead(old(sm.db.store), old(sm.db.nextId)) ==> r.Ok?
  {
    var planned := PlannedMeals(sm, startDate, endDate);
    plans := planned;
    r := NewListAsWritten(sm, extraItems.GetOr(""), planned);
    RaisedRollsBack(r, 200);
  }

  /** The new list and its items as written, for the entries `plans`. */
  method NewListAsWritten(sm: StorageManager, extra: string, plans: seq<int>) returns (r: Result<int>)
    requires sm.db.Valid()
    modifies sm.db
    ensures sm.db.Valid()
    ensures sm.db.committed == old(sm.db.committed) && sm.db.open == old(sm.db.open)
    ensures plans != [] ==> r.Err?
    ensures plans != [] && sm.user.id in T(old(sm.db.store), User) && Ahead(old(sm.db.store), old(sm.db.nextId))
            ==> r == Err(NoSuchAttribute)
    ensures r.Err? ==> r.error == NoSuchAttribute || r.error.IntegrityError?
    ensures plans == [] && sm.user.id in T(old(sm.db.store), User) && Ahead(old(sm.db.store), old(sm.db.nextId)) ==> r.Ok?
  {
    var created := CreateList(sm, extra);
    if created.Err? {
      return Err(created.error);
    }
    var done := ListItemsAsWritten(sm, created.value, plans, Split(extra, '\n'));
    if done.Failed? {
      return Err(done.error);
    }
    r := Ok(created.value);
  }

  /** The loops of `create_grocery_list` as written, on the new list `gl`: the first entry fails
      on `recipe.ingredient`; without entries, the extra items are added. */
  method ListItemsAsWritten(sm: StorageManager, gl: int, plans: seq<int>, lines: seq<string>) returns (r: Outcome)
    requires sm.db.Valid()
    requires forall j | j in T(sm.db.store, GroceryListItem) :: !RefersTo(T(sm.db.store, GroceryListItem)[j], GroceryListId, {gl})
    modifies sm.db
    ensures sm.db.Valid()
    ensures sm.db.committed == old(sm.db.committed) && sm.db.open == old(sm.db.open)
    ensures plans != [] ==> r == Failed(NoSuchAttribute)
    ensures r.Failed? ==> r.error == NoSuchAttribute || r.error.IntegrityError?
    ensures plans == [] && gl in T(old(sm.db.store), GroceryList) && Ahead(old(sm.db.store), old(sm.db.nextId)) ==> r.Done?
  {
    NoIngredientAttribute();
    if plans != [] && AttrNamed(Recipe, "ingredient").None? {
      return Failed(NoSuchAttribute);
    }
    ghost var sources, items;
    r, sources, items := CreateListItems(sm, gl, [], lines);
  }

  /** The item of one ingredient as grocery_lists.py:69-80 builds it: reading the recipe's
      `thumbnail_url` for the item raises AttributeError before the item exists. */
  function RecipeItemAsWritten(gl: int, ingredient: Row, recipe: Row): (r: Result<Row>)
    ensures r.Err? ==> r.error == NoSuchAttribute
    ensures r.Ok? ==> RecipeItem(gl, ingredient, recipe).Keys < r.value.Keys
  {
    match AttrNamed(Recipe, "thumbnail_url")
    case None => Err(NoSuchAttribute)
    case Some(f) =>
      if f in RecipeItem(gl, ingredient, recipe) then Err(NoSuchAttribute)
      else Ok(RecipeItem(gl, ingredient, recipe)[f := Val(recipe, f)])
  }

  /** So every ingredient of a planned recipe fails, whatever the list, the ingredient and the
      recipe. */
  lemma ThumbnailUrlFails(gl: int, ingredient: Row, recipe: Row)
    ensures RecipeItemAsWritten(gl, ingredient, recipe) == Err(NoSuchAttribute)
  {
    NoThumbnailAttribute();
  }

  /** What pydantic v1's `BaseModel` gives every request model besides its fields. */
  const BaseModelMethods: set<string> :=
    {"dict", "json", "copy", "parse_obj", "parse_raw", "parse_file", "from_orm", "construct",
     "schema", "schema_json", "validate", "update_forward_refs"}

  /** `getattr(request_data, name)` on a pydantic model instance. */
  predicate HasAttribute(request: Schema.PydanticModel, name: string) {
    name in request.fields || name in BaseModelMethods
  }

  /** `GroceryListUpdateSchema`: one required `extra_items: str`. */
  const GroceryListUpdateSchema: Schema.PydanticModel :=
    Schema.PydanticModel("GroceryListUpdateSchema", map["extra_items" := Schema.FieldSpec(Schema.Named("str"), Schema.Required)])

  /** The update request has no `get`: it is not a dict. */
  lemma UpdateSchemaHasNoGet()
    ensures !HasAttribute(GroceryListUpdateSchema, "get") && HasAttribute(GroceryListUpdateSchema, "extra_items")
  {
  }

  /** `update_grocery_list` as written on the request model `request` (carrying `text`): the old
      extra items are deleted, then `request_data.get(...)` raises AttributeError, as it does on
      `GroceryListUpdateSchema`; only a request object with a `get` would reach the update. */
  method UpdateGroceryListAsWritten(sm: StorageManager, id: int, request: Schema.PydanticModel, text: string)
    returns (r: Result<int>, ghost olds: seq<int>)
    requires sm.db.Valid()
    modifies sm.db
    ensures sm.db.Valid()
    ensures sm.db.committed == old(sm.db.committed) && sm.db.open == old(sm.db.open)
    ensures Enumerates(olds, if RowVisible(old(sm.db.store), sm.user, GroceryList, id) then ExtraKeys(T(old(sm.db.store), GroceryListItem), id) else {})
    ensures !HasAttribute(request, "get") ==> r == Err(NoSuchAttribute)
    ensures !HasAttribute(request, "get") ==>
      && T(sm.db.store, GroceryListItem) == Without(T(old(sm.db.store), GroceryListItem), Elems(olds))
      && forall x: Model | x != GroceryListItem :: T(sm.db.store, x) == T(old(sm.db.store), x)
    ensures r.Err? && r != Err(Missing(GroceryList)) ==> !Commits(ReplyOf(r, 200))
    ensures HasAttribute(request, "get") && RowVisible(old(sm.db.store), sm.user, GroceryList, id) && Ahead(old(sm.db.store), old(sm.db.nextId)) ==> r.Ok?
  {
    ghost var s0 := sm.db.store;
    var found := OldExtraItems(sm, id);
    olds := found;
    DeleteItems(sm, found);
    if !HasAttribute(request, "get") {
      return Err(NoSuchAttribute), olds;
    }
    SameLists(s0, sm.db.store, sm.user, id);
    DeletionsStayAhead(s0, sm.db.store, Elems(found), sm.db.nextId);
    ghost var added;
    r, added := ReplaceExtras(sm, id, text, s0, Elems(found));
  }

  // ---------------------------------------------------------------- recipes.py

  /** `create_recipe` as written. `pop("steps_texts")` leaves a given `step_texts` in the data, so
      `Recipe(**request_data)` refuses it (TypeError) before anything is added; without it, the
      step loop runs over `[]` and the recipe gets no step (the builtin `id` it would link them to
      is never used). */
  method CreateRecipeAsWritten(sm: StorageManager, data: Row, ingredients: seq<Row>, stepTexts: Option<seq<string>>, tagIds: seq<int>)
    returns (r: Result<int>)
    requires sm.db.Valid()
    requires forall i | 0 <= i < |ingredients| :: ingredients[i].Keys <= IngredientInput
    modifies sm.db
    ensures sm.db.Valid()
    ensures sm.db.committed == old(sm.db.committed) && sm.db.open == old(sm.db.open)
    ensures stepTexts.Some? ==> r == Err(InvalidKeyword) && sm.db.store == old(sm.db.store)
    ensures r.Err? ==> !Commits(ReplyOf(r, 200))
    ensures r.Ok? ==> r.value in T(sm.db.store, Recipe) && RefKeys(T(sm.db.store, Step), RecipeId, r.value) == {}
    ensures && stepTexts.None? && data.Keys <= Columns(Recipe) && Id !in data && Fills(Recipe, Stamp(Recipe, data, sm.user))
            && sm.user.id in T(old(sm.db.store), User) && ChildrenAccepted(T(old(sm.db.store), Tag), ingredients, tagIds)
            && Ahead(old(sm.db.store), old(sm.db.nextId))
            ==> r.Ok?
  {
    NoStepTextsAttribute();
    if stepTexts.Some? && AttrNamed(Recipe, "step_texts").None? {
      return Err(InvalidKeyword);
    }
    ghost var s0 := sm.db.store;
    ghost var ingredientKeys, stepKeys, tagKeys;
    r, ingredientKeys, stepKeys, tagKeys := CreateRecipe(sm, data, ingredients, [], tagIds);
    NoStepsBuilt(s0, sm.db.store, if r.Ok? then r.value else 0, ingredients, tagIds, ingredientKeys, stepKeys, tagKeys);
  }

  /** A recipe built without step texts has no step. */
  lemma NoStepsBuilt(s0: Store, s: Store, k: int, ingredients: seq<Row>, tagIds: seq<int>,
                     ingredientKeys: seq<int>, stepKeys: seq<int>, tagKeys: seq<int>)
    ensures ChildrenBuilt(s0, s, k, ingredients, [], tagIds, ingredientKeys, stepKeys, tagKeys) ==> RefKeys(T(s, Step), RecipeId, k) == {}
  {
    if ChildrenBuilt(s0, s, k, ingredients, [], tagIds, ingredientKeys, stepKeys, tagKeys) {
      assert |stepKeys| == 0;
      assert Elems(stepKeys) == {};
    }
  }

  /** `update_recipe` as written. A non-empty `tag_ids` builds `Tag(recipe_id=id, tag_id=...)`,
      which Tag refuses (TypeError) before the update runs, whether or not the recipe exists;
      without tag ids the update goes through as intended. */
  method UpdateRecipeAsWritten(sm: StorageManager, id: int, fields: Row, ingredients: seq<Row>, texts: seq<string>, tagIds: seq<int>)
    returns (r: Result<int>)
    requires sm.db.Valid()
    requires Ingredients !in fields && Steps !in fields && Tags !in fields
    modifies sm.db
    ensures sm.db.Valid()
    ensures sm.db.committed == old(sm.db.committed) && sm.db.open == old(sm.db.open)
    ensures tagIds != [] ==> r == Err(InvalidKeyword) && sm.db.store == old(sm.db.store)
    ensures tagIds == [] ==> (r == Err(Missing(Recipe)) <==> !RowVisible(old(sm.db.store), sm.user, Recipe, id))
    ensures r.Ok? ==> ListReplaced(old(sm.db.store), sm.db.store, RecipeTagAssoc, id, [])
    ensures && tagIds == [] && RowVisible(old(sm.db.store), sm.user, Recipe, id) && fields.Keys <= Columns(Recipe)
            && Constraints(With(old(sm.db.store), Recipe, T(old(sm.db.store), Recipe)[id := T(old(sm.db.store), Recipe)[id] + fields]))
            && (forall i | 0 <= i < |ingredients| :: ingredients[i].Keys <= IngredientInput)
            && ChildrenAccepted(T(old(sm.db.store), Tag), ingredients, [])
            && Ahead(old(sm.db.store), old(sm.db.nextId))
            ==> r.Ok?
  {
    NoTagRecipeAttribute();
    if tagIds != [] && AttrNamed(Tag, "recipe_id").None? {
      return Err(InvalidKeyword);
    }
    r := UpdateRecipe(sm, id, fields, ingredients, texts, []);
  }

  // ---------------------------------------------------------------- users.py

  /** `update_user` as written. A password change builds `filter_by(user=id)`, which SQLAlchemy
      refuses (User has no attribute `user`) before any query runs; a role change alone goes
      through as intended. */
  method UpdateUserAsWritten(db: Session, user: Principal, id: int, data: UserUpdate, hash: string -> string) returns (r: Outcome)
    requires db.Valid()
    requires data.role.Some? || data.password.Some?
    modifies db
    ensures db.Valid()
    ensures data.password.Some? ==> r == Failed(NoSuchAttribute) && db.store == old(db.store) && db.committed == old(db.committed)
    ensures data.password.None? && user.role == "admin" ==> r.Done?
    ensures r.Done? ==> data.password.None? && db.committed == db.store
    ensures r.Done? ==>
      T(db.store, User) == Patch(T(old(db.store), User), if RowVisible(old(db.store), user, User, id) then {id} else {}, UpdateValues(data, hash))
  {
    NoUserAttribute();
    if data.password.Some? && AttrNamed(User, "user").None? {
      return Failed(NoSuchAttribute);
    }
    r := UpdateUser(db, user, id, data, hash);
  }
}
