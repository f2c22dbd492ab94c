/** The recipe routes of src/server/routes/recipes.py: list (optionally by name, ordered by name),
    create with ingredients, steps and tags, get, update (replacing only the lists that are given)
    and delete. */
module Recipes {
  import opened Common
  import opened Models
  import opened ModelFacts
  import opened Query
  import opened RowChecks
  import opened Db
  import opened Storage

  /** The columns an ingredient of a request may set (`IngredientCreateSchema`). */
  const IngredientInput: set<Field> := {Quantity, Unit, Name, Comment, Input}

  /** The ingredient rows, each given its index as `position`. */
  function IngredientRows(ingredients: seq<Row>): (rows: seq<Row>)
    ensures |rows| == |ingredients|
    ensures forall i | 0 <= i < |rows| :: rows[i] == ingredients[i][Position := VInt(i)]
  {
    seq(|ingredients|, i requires 0 <= i < |ingredients| => ingredients[i][Position := VInt(i)])
  }

  /** The step rows: one per text, in order, each given its index as `position`. */
  function StepRows(texts: seq<string>): (rows: seq<Row>)
    ensures |rows| == |texts|
    ensures forall i | 0 <= i < |rows| :: rows[i] == map[Text := VStr(texts[i]), Position := VInt(i)]
  {
    seq(|texts|, i requires 0 <= i < |texts| => map[Text := VStr(texts[i]), Position := VInt(i)])
  }

  /** The association rows: one per tag id, in order. */
  function TagRows(tagIds: seq<int>): (rows: seq<Row>)
    ensures |rows| == |tagIds|
    ensures forall i | 0 <= i < |rows| :: rows[i] == map[TagId := VInt(tagIds[i])]
  {
    seq(|tagIds|, i requires 0 <= i < |tagIds| => map[TagId := VInt(tagIds[i])])
  }

  lemma IngredientRowsFit(ingredients: seq<Row>)
    requires forall i | 0 <= i < |ingredients| :: ingredients[i].Keys <= IngredientInput
    ensures !HasUserIdColumn(Ingredient) && RecipeId in Columns(Ingredient)
    ensures forall i | 0 <= i < |ingredients| :: IngredientRows(ingredients)[i].Keys <= Columns(Ingredient)
  {
  }

  lemma StepRowsFit(texts: seq<string>)
    ensures !HasUserIdColumn(Step) && RecipeId in Columns(Step)
    ensures forall i | 0 <= i < |texts| :: StepRows(texts)[i].Keys <= Columns(Step)
  {
  }

  lemma TagRowsFit(tagIds: seq<int>)
    ensures !HasUserIdColumn(RecipeTagAssoc) && RecipeId in Columns(RecipeTagAssoc)
    ensures forall i | 0 <= i < |tagIds| :: TagRows(tagIds)[i].Keys <= Columns(RecipeTagAssoc)
  {
  }

  /** An ingredient the NOT NULL columns accept: it gives a name and an input text, and no
      column it gives but the unit and the comment is NULL. */
  predicate IngredientComplete(ing: Row) {
    Name in ing && Input in ing && forall f | f in ing && !Nullable(Ingredient, f) :: ing[f] != VNull
  }

  /** The lists of a recipe request that the tables accept: complete ingredients, and distinct tags
      that exist. */
  predicate ChildrenAccepted(tags: Table, ingredients: seq<Row>, tagIds: seq<int>) {
    && (forall i | 0 <= i < |ingredients| :: IngredientComplete(ingredients[i]))
    && (forall i | 0 <= i < |tagIds| :: tagIds[i] in tags)
    && (forall i, j | 0 <= i < j < |tagIds| :: tagIds[i] != tagIds[j])
  }

  lemma IngredientFills(ing: Row, k: int, i: int)
    requires ing.Keys <= IngredientInput && IngredientComplete(ing)
    ensures Id !in ing[Position := VInt(i)] && Fills(Ingredient, ing[Position := VInt(i)][RecipeId := VInt(k)])
  {
    var row := ing[Position := VInt(i)][RecipeId := VInt(k)];
    forall f | f in Columns(Ingredient) && f != Id && !Nullable(Ingredient, f)
      ensures if f in row then row[f] != VNull else Default(Ingredient, f).Some?
    {
      assert f in {RecipeId, Quantity, Name, Input, Position};
    }
  }

  /** The ingredients of recipe `k` go in when the recipe exists and each is complete. */
  lemma IngredientsAccepted(s: Store, k: int, ingredients: seq<Row>)
    requires forall i | 0 <= i < |ingredients| :: ingredients[i].Keys <= IngredientInput
    ensures k in T(s, Recipe) && (forall i | 0 <= i < |ingredients| :: IngredientComplete(ingredients[i]))
            ==> RunAccepted(s, Ingredient, RecipeId, k, IngredientRows(ingredients))
  {
    if k in T(s, Recipe) && forall i | 0 <= i < |ingredients| :: IngredientComplete(ingredients[i]) {
      var rows := IngredientRows(ingredients);
      forall i | 0 <= i < |rows|
        ensures Id !in rows[i] && Fills(Ingredient, rows[i][RecipeId := VInt(k)])
        ensures RowRefsOk(s, Ingredient, rows[i][RecipeId := VInt(k)])
      {
        IngredientFills(ingredients[i], k, i);
      }
    }
  }

  /** The steps of recipe `k` go in when the recipe exists. */
  lemma StepsAccepted(s: Store, k: int, texts: seq<string>)
    ensures k in T(s, Recipe) ==> RunAccepted(s, Step, RecipeId, k, StepRows(texts))
  {
    var rows := StepRows(texts);
    forall i | 0 <= i < |rows| ensures Id !in rows[i] && Fills(Step, rows[i][RecipeId := VInt(k)]) {
      var row := rows[i][RecipeId := VInt(k)];
      assert row == map[Text := VStr(texts[i]), Position := VInt(i), RecipeId := VInt(k)];
    }
  }

  /** The tag associations of recipe `k` go in when the recipe exists and has none yet, and the
      tags exist and are distinct. */
  lemma TagsAccepted(s: Store, k: int, tagIds: seq<int>)
    ensures && k in T(s, Recipe)
            && (forall i | 0 <= i < |tagIds| :: tagIds[i] in T(s, Tag))
            && (forall i, j | 0 <= i < j < |tagIds| :: tagIds[i] != tagIds[j])
            && (forall j | j in T(s, RecipeTagAssoc) :: !RefersTo(T(s, RecipeTagAssoc)[j], RecipeId, {k}))
            ==> RunAccepted(s, RecipeTagAssoc, RecipeId, k, TagRows(tagIds))
  {
    var rows := TagRows(tagIds);
    forall i | 0 <= i < |rows| ensures Id !in rows[i] && Fills(RecipeTagAssoc, rows[i][RecipeId := VInt(k)]) {
      assert rows[i][RecipeId := VInt(k)] == map[TagId := VInt(tagIds[i]), RecipeId := VInt(k)];
    }
    forall i | 0 <= i < |rows| ensures Lookup(rows[i], TagId) == Some(VInt(tagIds[i])) {
    }
  }

  /** A recipe of an existing user, naming only columns, leaving out the key and filling every
      NOT NULL column, goes in under a key the sequence is ahead of. */
  lemma RecipeInsertOk(s: Store, data: Row, user: Principal, next: int)
    requires Constraints(s)
    ensures && data.Keys <= Columns(Recipe) && Id !in data && Fills(Recipe, Stamp(Recipe, data, user))
            && user.id in T(s, User) && Ahead(s, next)
            ==> Insert(s, Recipe, Stamp(Recipe, data, user), next).Ok?
  {
    if data.Keys <= Columns(Recipe) && Id !in data && Fills(Recipe, Stamp(Recipe, data, user)) && user.id in T(s, User) && Ahead(s, next) {
      InsertOk(s, Recipe, Stamp(Recipe, data, user), next);
    }
  }

  // ---------------------------------------------------------------- list

  /** The filters of `list_recipes`: the name, when one is given. */
  function NameFilter(name: Option<string>): Filters {
    if name.Some? then map[Attr(Name) := VStr(name.value)] else map[]
  }

  /** The recipes the requester may see, with the given name when there is one. */
  function RecipesNamed(s: Store, user: Principal, name: Option<string>): set<int> {
    set k | k in T(s, Recipe) && Visible(s, user, Recipe, T(s, Recipe)[k])
              && (name.Some? ==> Lookup(T(s, Recipe)[k], Name) == Some(VStr(name.value)))
  }

  lemma NamedListed(s: Store, user: Principal, name: Option<string>)
    ensures Known(Recipe, ListConds(user, NameFilter(name)))
    ensures Matching(s, Recipe, ListConds(user, NameFilter(name))) == RecipesNamed(s, user, name)
  {
    var f := NameFilter(name);
    assert AttrFilters(f) == if name.Some? then map[Name := VStr(name.value)] else map[];
    forall k ensures k in Matching(s, Recipe, ListConds(user, f)) <==> k in RecipesNamed(s, user, name) {
      ListMatches(s, user, Recipe, f, k);
      if name.Some? && k in T(s, Recipe) {
        assert Attr(Name) in f;
      }
    }
  }

  /** `list_recipes`: the recipes the requester may see, filtered by name when one is given,
      in ascending order of name. */
  method ListRecipes(sm: StorageManager, name: Option<string>) returns (ks: seq<int>)
    ensures Enumerates(ks, RecipesNamed(sm.db.store, sm.user, name))
    ensures SortedBy(T(sm.db.store, Recipe), ks, Name)
  {
    NamedListed(sm.db.store, sm.user, name);
    var listed, _ := sm.List(Recipe, NameFilter(name), Some(Name));
    ks := listed.value;
  }

  // ---------------------------------------------------------------- create

  /** A recipe that does not exist yet has no ingredients, steps or tags. */
  lemma NoChildrenYet(s: Store, k: int)
    requires Constraints(s) && k !in T(s, Recipe)
    ensures forall j | j in T(s, Ingredient) :: !RefersTo(T(s, Ingredient)[j], RecipeId, {k})
    ensures forall j | j in T(s, Step) :: !RefersTo(T(s, Step)[j], RecipeId, {k})
    ensures forall j | j in T(s, RecipeTagAssoc) :: !RefersTo(T(s, RecipeTagAssoc)[j], RecipeId, {k})
  {
    assert TableOk(s, Ingredient) && TableOk(s, Step) && TableOk(s, RecipeTagAssoc);
  }

  /** Inserting the members of a new parent's list, into a table where nothing refers to it yet,
      makes them exactly its members. */
  lemma NewMembers(s0: Store, s1: Store, s: Store, child: Model, k: int, rows: seq<Row>, ks: seq<int>)
    requires forall j | j in T(s0, child) :: !RefersTo(T(s0, child)[j], RecipeId, {k})
    requires T(s1, child) == T(s0, child)
    requires Grown(s1, s, child, RecipeId, k, rows, ks) && |ks| == |rows|
    ensures Relinked(s0, s, child, RecipeId, k, rows, ks)
  {
    NothingToDrop(T(s0, child), RecipeId, {k});
    GrownRelinks(s0, s1, s, child, RecipeId, k, rows, ks);
  }

  /** Dropping the rows that refer to ids nothing refers to drops nothing. */
  lemma NothingToDrop(t: Table, f: Field, ids: set<int>)
    requires forall j | j in t :: !RefersTo(t[j], f, ids)
    ensures DropRefs(t, f, ids) == t
  {
    var r := DropRefs(t, f, ids);
    forall j | j in t ensures j in r {
      assert !RefersTo(t[j], f, ids);
    }
    assert r.Keys == t.Keys;
  }

  /** A later run of inserts into other tables keeps a list's members. */
  lemma RelinkedKept(s0: Store, s1: Store, s: Store, child: Model, k: int, rows: seq<Row>, ks: seq<int>)
    requires Relinked(s0, s1, child, RecipeId, k, rows, ks)
    requires T(s, child) == T(s1, child)
    ensures Relinked(s0, s, child, RecipeId, k, rows, ks)
  {
  }

  /** The members of a created list hold the request's values, and the position is the index in
      the request. */
  lemma PositionsFollowRequest(s0: Store, s: Store, child: Model, k: int, given: seq<Row>, rows: seq<Row>, ks: seq<int>)
    requires |rows| == |given| && forall i | 0 <= i < |rows| :: rows[i] == given[i][Position := VInt(i)]
    requires Relinked(s0, s, child, RecipeId, k, rows, ks)
    ensures forall i | 0 <= i < |ks| :: ks[i] in T(s, child) && T(s, child)[ks[i]][Position] == VInt(i)
    ensures forall i | 0 <= i < |ks| :: forall f | f in given[i] && f != Position && f != RecipeId :: T(s, child)[ks[i]][f] == given[i][f]
  {
  }

  /** After `create_recipe`'s child inserts: recipe `k`'s ingredients, steps and tag associations
      are exactly the given rows, in order, and no class other than Recipe and these three
      changed. */
  ghost predicate ChildrenBuilt(s0: Store, s: Store, k: int, ingredients: seq<Row>, texts: seq<string>, tagIds: seq<int>,
                                ingredientKeys: seq<int>, stepKeys: seq<int>, tagKeys: seq<int>) {
    && Relinked(s0, s, Ingredient, RecipeId, k, IngredientRows(ingredients), ingredientKeys)
    && Relinked(s0, s, Step, RecipeId, k, StepRows(texts), stepKeys)
    && Relinked(s0, s, RecipeTagAssoc, RecipeId, k, TagRows(tagIds), tagKeys)
    && (forall x: Model | x !in {Recipe, Ingredient, Step, RecipeTagAssoc} :: T(s, x) == T(s0, x))
  }

  /** One run of child inserts: the new recipe's list of `child` becomes exactly `rows`. */
  method AddMembers(sm: StorageManager, ghost base: Store, child: Model, k: int, rows: seq<Row>) returns (r: Result<seq<int>>)
    requires sm.db.Valid() && !HasUserIdColumn(child) && RecipeId in Columns(child)
    requires forall i | 0 <= i < |rows| :: rows[i].Keys <= Columns(child)
    requires T(base, child) == T(sm.db.store, child)
    requires forall j | j in T(base, child) :: !RefersTo(T(base, child)[j], RecipeId, {k})
    modifies sm.db
    ensures sm.db.Valid()
    ensures sm.db.committed == old(sm.db.committed) && sm.db.open == old(sm.db.open)
    ensures r.Ok? ==> Relinked(base, sm.db.store, child, RecipeId, k, rows, r.value)
    ensures r.Ok? ==> forall x: Model | x != child :: T(sm.db.store, x) == T(old(sm.db.store), x)
    ensures r.Err? ==> r.error.IntegrityError? && sm.db.store == old(sm.db.committed)
    ensures RunAccepted(old(sm.db.store), child, RecipeId, k, rows) && Ahead(old(sm.db.store), old(sm.db.nextId))
            ==> r.Ok? && Ahead(sm.db.store, sm.db.nextId)
  {
    ghost var before := sm.db.store;
    r := CreateEach(sm, child, RecipeId, k, rows);
    if r.Ok? {
      NewMembers(base, before, sm.db.store, child, k, rows, r.value);
    }
  }

  /** The three runs of inserts, one table after the other, build the recipe's children. */
  lemma Built(base: Store, s1: Store, s: Store, k: int, ingredients: seq<Row>, texts: seq<string>, tagIds: seq<int>,
              ingredientKeys: seq<int>, stepKeys: seq<int>, tagKeys: seq<int>)
    requires Relinked(base, s1, Ingredient, RecipeId, k, IngredientRows(ingredients), ingredientKeys)
    requires Relinked(base, s, Step, RecipeId, k, StepRows(texts), stepKeys)
    requires Relinked(base, s, RecipeTagAssoc, RecipeId, k, TagRows(tagIds), tagKeys)
    requires forall x: Model | x != Recipe && x != Ingredient :: T(s1, x) == T(base, x)
    requires forall x: Model | x != Step && x != RecipeTagAssoc :: T(s, x) == T(s1, x)
    ensures ChildrenBuilt(base, s, k, ingredients, texts, tagIds, ingredientKeys, stepKeys, tagKeys)
  {
    RelinkedKept(base, s1, s, Ingredient, k, IngredientRows(ingredients), ingredientKeys);
  }

  /** The three runs of child inserts of `create_recipe`. */
  method CreateChildren(sm: StorageManager, ghost base: Store, k: int, ingredients: seq<Row>, texts: seq<string>, tagIds: seq<int>)
    returns (r: Outcome, ghost ingredientKeys: seq<int>, ghost stepKeys: seq<int>, ghost tagKeys: seq<int>)
    requires sm.db.Valid()
    requires forall x: Model | x != Recipe :: T(base, x) == T(sm.db.store, x)
    requires forall i | 0 <= i < |ingredients| :: ingredients[i].Keys <= IngredientInput
    requires forall j | j in T(base, Ingredient) :: !RefersTo(T(base, Ingredient)[j], RecipeId, {k})
    requires forall j | j in T(base, Step) :: !RefersTo(T(base, Step)[j], RecipeId, {k})
    requires forall j | j in T(base, RecipeTagAssoc) :: !RefersTo(T(base, RecipeTagAssoc)[j], RecipeId, {k})
    modifies sm.db
    ensures sm.db.Valid()
    ensures sm.db.committed == old(sm.db.committed) && sm.db.open == old(sm.db.open)
    ensures r.Done? ==> ChildrenBuilt(base, sm.db.store, k, ingredients, texts, tagIds, ingredientKeys, stepKeys, tagKeys)
    ensures r.Done? ==> T(sm.db.store, Recipe) == T(old(sm.db.store), Recipe)
    ensures r.Failed? ==> r.error.IntegrityError? && sm.db.store == old(sm.db.committed)
    ensures k in T(old(sm.db.store), Recipe) && ChildrenAccepted(T(old(sm.db.store), Tag), ingredients, tagIds) && Ahead(old(sm.db.store), old(sm.db.nextId))
            ==> r.Done?
  {
    var ing := AddIngredients(sm, base, k, ingredients);
    if ing.Err? {
      return Failed(ing.error), [], [], [];
    }
    ghost var s1 := sm.db.store;
    r, stepKeys, tagKeys := AddStepsAndTags(sm, base, k, texts, tagIds);
    if r.Failed? {
      return r, [], [], [];
    }
    ingredientKeys := ing.value;
    Built(base, s1, sm.db.store, k, ingredients, texts, tagIds, ingredientKeys, stepKeys, tagKeys);
  }

  /** The last two runs: the steps, then the tag associations. */
  method AddStepsAndTags(sm: StorageManager, ghost base: Store, k: int, texts: seq<string>, tagIds: seq<int>)
    returns (r: Outcome, ghost stepKeys: seq<int>, ghost tagKeys: seq<int>)
    requires sm.db.Valid()
    requires T(base, Step) == T(sm.db.store, Step) && T(base, RecipeTagAssoc) == T(sm.db.store, RecipeTagAssoc)
    requires forall j | j in T(base, Step) :: !RefersTo(T(base, Step)[j], RecipeId, {k})
    requires forall j | j in T(base, RecipeTagAssoc) :: !RefersTo(T(base, RecipeTagAssoc)[j], RecipeId, {k})
    modifies sm.db
    ensures sm.db.Valid()
    ensures sm.db.committed == old(sm.db.committed) && sm.db.open == old(sm.db.open)
    ensures r.Done? ==> Relinked(base, sm.db.store, Step, RecipeId, k, StepRows(texts), stepKeys)
    ensures r.Done? ==> Relinked(base, sm.db.store, RecipeTagAssoc, RecipeId, k, TagRows(tagIds), tagKeys)
    ensures r.Done? ==> forall x: Model | x != Step && x != RecipeTagAssoc :: T(sm.db.store, x) == T(old(sm.db.store), x)
    ensures r.Failed? ==> r.error.IntegrityError? && sm.db.store == old(sm.db.committed)
    ensures && k in T(old(sm.db.store), Recipe)
            && (forall i | 0 <= i < |tagIds| :: tagIds[i] in T(old(sm.db.store), Tag))
            && (forall i, j | 0 <= i < j < |tagIds| :: tagIds[i] != tagIds[j])
            && Ahead(old(sm.db.store), old(sm.db.nextId))
            ==> r.Done?
  {
    stepKeys, tagKeys := [], [];
    var st := AddSteps(sm, base, k, texts);
    if st.Err? {
      return Failed(st.error), stepKeys, tagKeys;
    }
    ghost var s2 := sm.db.store;
    var tg := AddTags(sm, base, k, tagIds);
    if tg.Err? {
      return Failed(tg.error), stepKeys, tagKeys;
    }
    stepKeys, tagKeys := st.value, tg.value;
    RelinkedKept(base, s2, sm.db.store, Step, k, StepRows(texts), stepKeys);
    r := Done;
  }

  /** The first run of child inserts of `create_recipe`: the ingredients, in order. */
  method AddIngredients(sm: StorageManager, ghost base: Store, k: int, ingredients: seq<Row>) returns (r: Result<seq<int>>)
    requires sm.db.Valid()
    requires forall i | 0 <= i < |ingredients| :: ingredients[i].Keys <= IngredientInput
    requires T(base, Ingredient) == T(sm.db.store, Ingredient)
    requires forall j | j in T(base, Ingredient) :: !RefersTo(T(base, Ingredient)[j], RecipeId, {k})
    modifies sm.db
    ensures sm.db.Valid()
    ensures sm.db.committed == old(sm.db.committed) && sm.db.open == old(sm.db.open)
    ensures r.Ok? ==> Relinked(base, sm.db.store, Ingredient, RecipeId, k, IngredientRows(ingredients), r.value)
    ensures r.Ok? ==> forall x: Model | x != Ingredient :: T(sm.db.store, x) == T(old(sm.db.store), x)
    ensures r.Err? ==> r.error.IntegrityError? && sm.db.store == old(sm.db.committed)
    ensures && k in T(old(sm.db.store), Recipe)
            && (forall i | 0 <= i < |ingredients| :: IngredientComplete(ingredients[i]))
            && Ahead(old(sm.db.store), old(sm.db.nextId))
            ==> r.Ok? && Ahead(sm.db.store, sm.db.nextId)
  {
    IngredientRowsFit(ingredients);
    IngredientsAccepted(sm.db.store, k, ingredients);
    r := AddMembers(sm, base, Ingredient, k, IngredientRows(ingredients));
  }

  /** The second run: one step per text, in order. */
  method AddSteps(sm: StorageManager, ghost base: Store, k: int, texts: seq<string>) returns (r: Result<seq<int>>)
    requires sm.db.Valid()
    requires T(base, Step) == T(sm.db.store, Step)
    requires forall j | j in T(base, Step) :: !RefersTo(T(base, Step)[j], RecipeId, {k})
    modifies sm.db
    ensures sm.db.Valid()
    ensures sm.db.committed == old(sm.db.committed) && sm.db.open == old(sm.db.open)
    ensures r.Ok? ==> Relinked(base, sm.db.store, Step, RecipeId, k, StepRows(texts), r.value)
    ensures r.Ok? ==> forall x: Model | x != Step :: T(sm.db.store, x) == T(old(sm.db.store), x)
    ensures r.Err? ==> r.error.IntegrityError? && sm.db.store == old(sm.db.committed)
    ensures k in T(old(sm.db.store), Recipe) && Ahead(old(sm.db.store), old(sm.db.nextId))
            ==> r.Ok? && Ahead(sm.db.store, sm.db.nextId)
  {
    StepRowsFit(texts);
    StepsAccepted(sm.db.store, k, texts);
    r := AddMembers(sm, base, Step, k, StepRows(texts));
  }

  /** The last run of child inserts of `create_recipe`: one association per tag id. */
  method AddTags(sm: StorageManager, ghost base: Store, k: int, tagIds: seq<int>) returns (r: Result<seq<int>>)
    requires sm.db.Valid()
    requires T(base, RecipeTagAssoc) == T(sm.db.store, RecipeTagAssoc)
    requires forall j | j in T(base, RecipeTagAssoc) :: !RefersTo(T(base, RecipeTagAssoc)[j], RecipeId, {k})
    modifies sm.db
    ensures sm.db.Valid()
    ensures sm.db.committed == old(sm.db.committed) && sm.db.open == old(sm.db.open)
    ensures r.Ok? ==> Relinked(base, sm.db.store, RecipeTagAssoc, RecipeId, k, TagRows(tagIds), r.value)
    ensures r.Ok? ==> forall x: Model | x != RecipeTagAssoc :: T(sm.db.store, x) == T(old(sm.db.store), x)
    ensures r.Err? ==> r.error.IntegrityError? && sm.db.store == old(sm.db.committed)
    ensures && k in T(old(sm.db.store), Recipe)
            && (forall i | 0 <= i < |tagIds| :: tagIds[i] in T(old(sm.db.store), Tag))
            && (forall i, j | 0 <= i < j < |tagIds| :: tagIds[i] != tagIds[j])
            && Ahead(old(sm.db.store), old(sm.db.nextId))
            ==> r.Ok?
  {
    TagRowsFit(tagIds);
    TagsAccepted(sm.db.store, k, tagIds);
    r := AddMembers(sm, base, RecipeTagAssoc, k, TagRows(tagIds));
  }

  /** The recipe row of `create_recipe`: `Recipe(**data)`, owned by the requester. */
  method AddRecipe(sm: StorageManager, data: Row) returns (r: Result<int>)
    requires sm.db.Valid()
    modifies sm.db
    ensures sm.db.Valid()
    ensures sm.db.committed == old(sm.db.committed) && sm.db.open == old(sm.db.open)
    ensures r.Ok? ==> RowAdded(T(old(sm.db.store), Recipe), T(sm.db.store, Recipe), r.value, Stamp(Recipe, data, sm.user))
    ensures r.Ok? ==> forall x: Model | x != Recipe :: T(sm.db.store, x) == T(old(sm.db.store), x)
    ensures r == Err(InvalidKeyword) <==> !(Stamp(Recipe, data, sm.user).Keys <= Columns(Recipe))
    ensures r == Err(InvalidKeyword) ==> sm.db.store == old(sm.db.store)
    ensures r.Err? && r != Err(InvalidKeyword) ==> r.error.IntegrityError? && sm.db.store == old(sm.db.committed)
    ensures && data.Keys <= Columns(Recipe) && Id !in data && Fills(Recipe, Stamp(Recipe, data, sm.user))
            && sm.user.id in T(old(sm.db.store), User) && Ahead(old(sm.db.store), old(sm.db.nextId))
            ==> r.Ok? && Ahead(sm.db.store, sm.db.nextId)
  {
    RecipeInsertOk(sm.db.store, data, sm.user, sm.db.nextId);
    r := sm.Create(Recipe, data);
  }

  /** `create_recipe`: the recipe from the request's columns, owned by the requester; then its
      ingredients, each with its index as `position`; its steps, one per text with its index as
      `position`; and one association per tag id. The source pops `"steps_texts"` (so the
      request's `step_texts` would reach the Recipe constructor) and creates the steps with the
      builtin `id` as `recipe_id`; the model pops `step_texts` and links the steps to the new
      recipe, as the route evidently intends. */
  method CreateRecipe(sm: StorageManager, data: Row, ingredients: seq<Row>, texts: seq<string>, tagIds: seq<int>)
    returns (r: Result<int>, ghost ingredientKeys: seq<int>, ghost stepKeys: seq<int>, ghost tagKeys: seq<int>)
    requires sm.db.Valid()
    requires forall i | 0 <= i < |ingredients| :: ingredients[i].Keys <= IngredientInput
    modifies sm.db
    ensures sm.db.Valid()
    ensures sm.db.committed == old(sm.db.committed) && sm.db.open == old(sm.db.open)
    ensures r.Ok? ==> RowAdded(T(old(sm.db.store), Recipe), T(sm.db.store, Recipe), r.value, Stamp(Recipe, data, sm.user))
    ensures r.Ok? ==> ChildrenBuilt(old(sm.db.store), sm.db.store, r.value, ingredients, texts, tagIds, ingredientKeys, stepKeys, tagKeys)
    ensures r == Err(InvalidKeyword) <==> !(Stamp(Recipe, data, sm.user).Keys <= Columns(Recipe))
    ensures r == Err(InvalidKeyword) ==> sm.db.store == old(sm.db.store)
    ensures r.Err? && r != Err(InvalidKeyword) ==> r.error.IntegrityError? && sm.db.store == old(sm.db.committed)
    ensures && data.Keys <= Columns(Recipe) && Id !in data && Fills(Recipe, Stamp(Recipe, data, sm.user))
            && sm.user.id in T(old(sm.db.store), User) && ChildrenAccepted(T(old(sm.db.store), Tag), ingredients, tagIds)
            && Ahead(old(sm.db.store), old(sm.db.nextId))
            ==> r.Ok?
  {
    ghost var s0 := sm.db.store;
    var created := AddRecipe(sm, data);
    if created.Err? {
      return Err(created.error), [], [], [];
    }
    var k := created.value;
    NoChildrenYet(s0, k);
    var done;
    done, ingredientKeys, stepKeys, tagKeys := CreateChildren(sm, s0, k, ingredients, texts, tagIds);
    if done.Failed? {
      return Err(done.error), [], [], [];
    }
    r := Ok(k);
  }

  // ---------------------------------------------------------------- get, update, delete

  /** `get_recipe`: the recipe with that id when the requester may see it, 400 "Recipe doesn't
      exist" otherwise. */
  method GetRecipe(sm: StorageManager, id: int) returns (r: Result<int>)
    requires sm.db.Valid()
    ensures r.Ok? <==> RowVisible(sm.db.store, sm.user, Recipe, id)
    ensures r.Ok? ==> r.value == id
    ensures r.Err? ==> r.error == Missing(Recipe)
  {
    assert TableOk(sm.db.store, Recipe);
    IdScope(sm.db.store, sm.user, Recipe, id);
    r := sm.Get(Recipe, ById(id));
  }

  /** The data `update_recipe` hands to `update`: the request's columns, and each list that is
      given and not empty. For the tags the source builds `Tag(recipe_id=id, tag_id=...)`, which
      the Tag class refuses; the model replaces the recipe's association rows, one per tag id, as
      the route evidently intends. */
  function RecipeChanges(fields: Row, ingredients: seq<Row>, texts: seq<string>, tagIds: seq<int>): (data: map<Field, Assign>)
    ensures Lists(data).Keys <= ListRelations(Recipe)
  {
    (map f | f in fields :: Scalar(fields[f]))
      + (if |ingredients| > 0 then map[Ingredients := Members(IngredientRows(ingredients))] else map[])
      + (if |texts| > 0 then map[Steps := Members(StepRows(texts))] else map[])
      + (if |tagIds| > 0 then map[Tags := Members(TagRows(tagIds))] else map[])
  }

  /** The columns of the changes are the request's, and the lists are exactly the non-empty
      ones. */
  lemma ChangesSplit(fields: Row, ingredients: seq<Row>, texts: seq<string>, tagIds: seq<int>)
    requires Ingredients !in fields && Steps !in fields && Tags !in fields
    ensures var data := RecipeChanges(fields, ingredients, texts, tagIds);
      && Scalars(data) == fields
      && (Ingredients in Lists(data) <==> |ingredients| > 0)
      && (Steps in Lists(data) <==> |texts| > 0)
      && (Tags in Lists(data) <==> |tagIds| > 0)
      && (Ingredients in Lists(data) ==> Lists(data)[Ingredients] == IngredientRows(ingredients))
      && (Steps in Lists(data) ==> Lists(data)[Steps] == StepRows(texts))
      && (Tags in Lists(data) ==> Lists(data)[Tags] == TagRows(tagIds))
      && Lists(data).Keys <= {Ingredients, Steps, Tags}
  {
    var data := RecipeChanges(fields, ingredients, texts, tagIds);
    ScalarsOfChanges(fields, ingredients, texts, tagIds);
  }

  lemma ScalarsOfChanges(fields: Row, ingredients: seq<Row>, texts: seq<string>, tagIds: seq<int>)
    requires Ingredients !in fields && Steps !in fields && Tags !in fields
    ensures Scalars(RecipeChanges(fields, ingredients, texts, tagIds)) == fields
  {
    var data := RecipeChanges(fields, ingredients, texts, tagIds);
    forall f ensures f in data && data[f].Scalar? <==> f in fields {
      if f in fields {
        assert data[f] == Scalar(fields[f]);
      }
    }
    forall f | f in fields ensures Scalars(data)[f] == fields[f] {
      assert data[f] == Scalar(fields[f]);
    }
  }

  /** The changes fit Recipe as soon as the request's columns are columns of it. */
  lemma ChangesFit(fields: Row, ingredients: seq<Row>, texts: seq<string>, tagIds: seq<int>)
    requires Ingredients !in fields && Steps !in fields && Tags !in fields
    ensures fields.Keys <= Columns(Recipe) ==> Fits(Recipe, RecipeChanges(fields, ingredients, texts, tagIds))
  {
    var data := RecipeChanges(fields, ingredients, texts, tagIds);
    if fields.Keys <= Columns(Recipe) {
      forall f | f in data ensures AssignError(Recipe, f, data[f]).None? {
        if f in fields {
          assert data[f] == Scalar(fields[f]);
        }
      }
    }
  }

  /** The lists of the changes are accepted, in place of the recipe's old members, when the
      recipe exists, the ingredients are complete and the tags exist and differ. */
  lemma ChangeListsAccepted(s: Store, id: int, fields: Row, ingredients: seq<Row>, texts: seq<string>, tagIds: seq<int>)
    requires Ingredients !in fields && Steps !in fields && Tags !in fields
    ensures && id in T(s, Recipe) && (forall i | 0 <= i < |ingredients| :: ingredients[i].Keys <= IngredientInput)
            && ChildrenAccepted(T(s, Tag), ingredients, tagIds)
            ==> ListsAccepted(s, Recipe, id, Lists(RecipeChanges(fields, ingredients, texts, tagIds)))
  {
    if && id in T(s, Recipe) && (forall i | 0 <= i < |ingredients| :: ingredients[i].Keys <= IngredientInput)
       && ChildrenAccepted(T(s, Tag), ingredients, tagIds)
    {
      var lists := Lists(RecipeChanges(fields, ingredients, texts, tagIds));
      ChangesSplit(fields, ingredients, texts, tagIds);
      forall rel | rel in lists ensures rel in ListRelations(Recipe) && ListAccepted(s, Recipe, id, rel, lists[rel]) {
        if rel == Ingredients {
          IngredientListAccepted(s, id, ingredients);
        } else if rel == Steps {
          StepListAccepted(s, id, texts);
        } else {
          TagListAccepted(s, id, tagIds);
        }
      }
    }
  }

  lemma IngredientListAccepted(s: Store, id: int, ingredients: seq<Row>)
    ensures && id in T(s, Recipe) && (forall i | 0 <= i < |ingredients| :: ingredients[i].Keys <= IngredientInput)
            && (forall i | 0 <= i < |ingredients| :: IngredientComplete(ingredients[i]))
            ==> ListAccepted(s, Recipe, id, Ingredients, IngredientRows(ingredients))
  {
    if && id in T(s, Recipe) && (forall i | 0 <= i < |ingredients| :: ingredients[i].Keys <= IngredientInput)
       && (forall i | 0 <= i < |ingredients| :: IngredientComplete(ingredients[i]))
    {
      IngredientRowsFit(ingredients);
      var d := With(s, Ingredient, DropRefs(T(s, Ingredient), RecipeId, {id}));
      assert ChildOf(Recipe, Ingredients) == (Ingredient, RecipeId);
      assert T(d, Recipe) == T(s, Recipe);
      IngredientsAccepted(d, id, ingredients);
    }
  }

  lemma StepListAccepted(s: Store, id: int, texts: seq<string>)
    ensures id in T(s, Recipe) ==> ListAccepted(s, Recipe, id, Steps, StepRows(texts))
  {
    StepRowsFit(texts);
    var d := With(s, Step, DropRefs(T(s, Step), RecipeId, {id}));
    assert ChildOf(Recipe, Steps) == (Step, RecipeId);
    assert T(d, Recipe) == T(s, Recipe);
    StepsAccepted(d, id, texts);
  }

  lemma TagListAccepted(s: Store, id: int, tagIds: seq<int>)
    ensures && id in T(s, Recipe) && (forall i | 0 <= i < |tagIds| :: tagIds[i] in T(s, Tag))
            && (forall i, j | 0 <= i < j < |tagIds| :: tagIds[i] != tagIds[j])
            ==> ListAccepted(s, Recipe, id, Tags, TagRows(tagIds))
  {
    TagRowsFit(tagIds);
    var d := With(s, RecipeTagAssoc, DropRefs(T(s, RecipeTagAssoc), RecipeId, {id}));
    assert ChildOf(Recipe, Tags) == (RecipeTagAssoc, RecipeId);
    assert T(d, Recipe) == T(s, Recipe) && T(d, Tag) == T(s, Tag);
    TagsAccepted(d, id, tagIds);
  }


  /** The outcome for one list of `update_recipe`: left alone when the request gives none, or
      replaced by the given rows. */
  ghost predicate ListReplaced(s0: Store, s: Store, child: Model, id: int, rows: seq<Row>) {
    if |rows| == 0 then T(s, child) == T(s0, child)
    else exists ks :: Relinked(s0, s, child, RecipeId, id, rows, ks)
  }

  /** A list left out of the changes leaves its table alone; one given is replaced. */
  lemma ListOfUpdate(s0: Store, s: Store, k: int, row: Row, lists: map<Field, seq<Row>>, rel: Field, child: Model, rows: seq<Row>)
    requires lists.Keys <= {Ingredients, Steps, Tags} && rel in {Ingredients, Steps, Tags} && child == ChildOf(Recipe, rel).0
    requires (rel in lists <==> |rows| > 0) && (rel in lists ==> lists[rel] == rows)
    requires Updated(s0, s, Recipe, k, row, lists)
    ensures ListReplaced(s0, s, child, k, rows)
  {
    if rel !in lists {
      forall other | other in lists ensures ChildOf(Recipe, other).0 != ChildOf(Recipe, rel).0 {
        ChildOfDistinct(Recipe, other, rel);
      }
      assert ChildOf(Recipe, rel).0 !in ChildModels(Recipe, lists.Keys);
    }
  }

  /** `update_recipe`: set the request's columns on the recipe and replace each list given
      non-empty (ingredients and steps numbered by their index); an empty or missing list leaves
      the recipe's members alone. 400 "Recipe doesn't exist" when the requester may not see it. */
  method UpdateRecipe(sm: StorageManager, id: int, fields: Row, ingredients: seq<Row>, texts: seq<string>, tagIds: seq<int>)
    returns (r: Result<int>)
    requires sm.db.Valid()
    requires Ingredients !in fields && Steps !in fields && Tags !in fields
    modifies sm.db
    ensures sm.db.Valid()
    ensures sm.db.committed == old(sm.db.committed) && sm.db.open == old(sm.db.open)
    ensures r == Err(Missing(Recipe)) <==> !RowVisible(old(sm.db.store), sm.user, Recipe, id)
    ensures r == Err(Missing(Recipe)) ==> sm.db.store == old(sm.db.store)
    ensures r.Err? ==> sm.db.store == old(sm.db.store) || sm.db.store == old(sm.db.committed)
    ensures r.Ok? ==> r.value == id && id in T(old(sm.db.store), Recipe) && fields.Keys <= Columns(Recipe)
    ensures r.Ok? ==> Updated(old(sm.db.store), sm.db.store, Recipe, id, T(old(sm.db.store), Recipe)[id] + fields,
                              Lists(RecipeChanges(fields, ingredients, texts, tagIds)))
    ensures r.Ok? ==> ListReplaced(old(sm.db.store), sm.db.store, Ingredient, id, IngredientRows(ingredients))
    ensures r.Ok? ==> ListReplaced(old(sm.db.store), sm.db.store, Step, id, StepRows(texts))
    ensures r.Ok? ==> ListReplaced(old(sm.db.store), sm.db.store, RecipeTagAssoc, id, TagRows(tagIds))
    ensures && RowVisible(old(sm.db.store), sm.user, Recipe, id) && fields.Keys <= Columns(Recipe)
            && Constraints(With(old(sm.db.store), Recipe, T(old(sm.db.store), Recipe)[id := T(old(sm.db.store), Recipe)[id] + fields]))
            && (forall i | 0 <= i < |ingredients| :: ingredients[i].Keys <= IngredientInput)
            && ChildrenAccepted(T(old(sm.db.store), Tag), ingredients, tagIds)
            && Ahead(old(sm.db.store), old(sm.db.nextId))
            ==> r.Ok?
  {
    ghost var s0 := sm.db.store;
    assert TableOk(s0, Recipe);
    IdScope(s0, sm.user, Recipe, id);
    var data := RecipeChanges(fields, ingredients, texts, tagIds);
    ChangesSplit(fields, ingredients, texts, tagIds);
    ChangesFit(fields, ingredients, texts, tagIds);
    ChangeListsAccepted(s0, id, fields, ingredients, texts, tagIds);
    r := sm.Update(Recipe, ById(id), data);
    if r.Ok? {
      UpdateOutcome(s0, sm.db.store, id, fields, data, ingredients, texts, tagIds);
    }
  }

  /** Every column the request sets is a column of Recipe once the update got through. */
  lemma FieldsAreColumns(fields: Row, data: map<Field, Assign>, ingredients: seq<Row>, texts: seq<string>, tagIds: seq<int>)
    requires Ingredients !in fields && Steps !in fields && Tags !in fields
    requires data == RecipeChanges(fields, ingredients, texts, tagIds) && Fits(Recipe, data)
    ensures fields.Keys <= Columns(Recipe) && Scalars(data) == fields
  {
    ChangesSplit(fields, ingredients, texts, tagIds);
    forall f | f in fields ensures f in Columns(Recipe) {
      assert f in data && data[f] == Scalar(fields[f]);
      assert AssignError(Recipe, f, data[f]).None?;
    }
  }

  lemma UpdateOutcome(s0: Store, s: Store, id: int, fields: Row, data: map<Field, Assign>,
                      ingredients: seq<Row>, texts: seq<string>, tagIds: seq<int>)
    requires Ingredients !in fields && Steps !in fields && Tags !in fields
    requires data == RecipeChanges(fields, ingredients, texts, tagIds)
    requires id in T(s0, Recipe) && Fits(Recipe, data)
    requires Updated(s0, s, Recipe, id, T(s0, Recipe)[id] + Scalars(data), Lists(data))
    ensures fields.Keys <= Columns(Recipe)
    ensures Updated(s0, s, Recipe, id, T(s0, Recipe)[id] + fields, Lists(data))
    ensures ListReplaced(s0, s, Ingredient, id, IngredientRows(ingredients))
    ensures ListReplaced(s0, s, Step, id, StepRows(texts))
    ensures ListReplaced(s0, s, RecipeTagAssoc, id, TagRows(tagIds))
  {
    FieldsAreColumns(fields, data, ingredients, texts, tagIds);
    ChangesSplit(fields, ingredients, texts, tagIds);
    ListsReplaced(s0, s, id, T(s0, Recipe)[id] + fields, Lists(data), IngredientRows(ingredients), StepRows(texts), TagRows(tagIds));
  }

  /** Each of the three lists is replaced when given and left alone otherwise. */
  lemma ListsReplaced(s0: Store, s: Store, id: int, row: Row, lists: map<Field, seq<Row>>,
                      ingredients: seq<Row>, steps: seq<Row>, tags: seq<Row>)
    requires lists.Keys <= {Ingredients, Steps, Tags}
    requires (Ingredients in lists <==> |ingredients| > 0) && (Ingredients in lists ==> lists[Ingredients] == ingredients)
    requires (Steps in lists <==> |steps| > 0) && (Steps in lists ==> lists[Steps] == steps)
    requires (Tags in lists <==> |tags| > 0) && (Tags in lists ==> lists[Tags] == tags)
    requires Updated(s0, s, Recipe, id, row, lists)
    ensures ListReplaced(s0, s, Ingredient, id, ingredients)
    ensures ListReplaced(s0, s, Step, id, steps)
    ensures ListReplaced(s0, s, RecipeTagAssoc, id, tags)
  {
    ListOfUpdate(s0, s, id, row, lists, Ingredients, Ingredient, ingredients);
    ListOfUpdate(s0, s, id, row, lists, Steps, Step, steps);
    ListOfUpdate(s0, s, id, row, lists, Tags, RecipeTagAssoc, tags);
  }

  /** `delete_recipe`: the recipe goes, and with it its ingredients, steps, meal-plan entries and
      tag associations; 400 "Recipe doesn't exist" when the requester may not see it. */
  method DeleteRecipe(sm: StorageManager, id: int) returns (r: Result<int>)
    requires sm.db.Valid()
    modifies sm.db
    ensures sm.db.Valid()
    ensures sm.db.committed == old(sm.db.committed) && sm.db.open == old(sm.db.open)
    ensures r.Ok? <==> RowVisible(old(sm.db.store), sm.user, Recipe, id)
    ensures r.Err? ==> r.error == Missing(Recipe) && sm.db.store == old(sm.db.store)
    ensures r.Ok? ==> r.value == id && sm.db.store == DeleteRow(old(sm.db.store), Recipe, id)
    ensures r.Ok? ==> forall j :: j in T(sm.db.store, Ingredient) <==>
      j in T(old(sm.db.store), Ingredient) && !RefersTo(T(old(sm.db.store), Ingredient)[j], RecipeId, {id})
    ensures r.Ok? ==> forall j :: j in T(sm.db.store, MealPlanItem) <==>
      j in T(old(sm.db.store), MealPlanItem) && !RefersTo(T(old(sm.db.store), MealPlanItem)[j], RecipeId, {id})
  {
    assert TableOk(sm.db.store, Recipe);
    IdScope(sm.db.store, sm.user, Recipe, id);
    DeleteRecipeScope(sm.db.store, id);
    r := sm.Delete(Recipe, ById(id));
  }
}
