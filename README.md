# Limon recipe backend: a Dafny model

Limon is a multi-tenant recipe manager. Its server keeps users, recipes (with ingredients, steps
and tags), meal-plan entries and grocery lists in a relational database. Every request runs on one
database session. A user with the role "user" sees and changes only the rows it owns. The owner of
a row is either its own `user_id` column or, for ingredients, steps, meal-plan items and grocery-list
items, the `user_id` of the parent row. An "admin" sees every row.

This project models that core:

- the mapped classes and their constraints: columns, NOT NULL, foreign keys with
  `ondelete="CASCADE"`, the unique user names, tag names and association pairs, column defaults,
  and the derived `user_id`;
- the session: add, flush, commit, rollback, close, bulk UPDATE, delete with cascades;
- `safe_query` and the generic `StorageManager` (list, create, get, update, delete);
- `sqlalchemy_to_pydantic`;
- every route that reads or writes the store: recipes, grocery lists, grocery-list items,
  meal-plan items, tags and users;
- the application wiring: the session middleware, the bootstrap admin and the operation ids.

The store is a map from mapped class to table, and a table is a map from key to row. A row is a
map from column to value. Dates are integers. The database checks every constraint at each flush;
a failed flush raises an IntegrityError and the session falls back to its last commit. Password
hashing, JWT encoding, the clock and the configuration are parameters of the operations that use
them.

Modules, by source file:

| module | file | models |
|---|---|---|
| `Models`, `ModelFacts`, `TableEdits` | `models.dfy`, `model_facts.dfy`, `table_edits.dfy` | `src/server/storage/models.py` |
| `Common` | `common.dfy` | column values, results and the errors the backend raises |
| `RowChecks` | `row_checks.dfy` | what the database checks when one row goes in |
| `Db` | `session.dfy` | the SQLAlchemy session the code relies on |
| `Query`, `Ordering` | `query.dfy`, `ordering.dfy` | `safe_query` in `src/server/storage/utils.py`, `one`, `one_or_none`, `order_by` |
| `Schema` | `schema.dfy` | `sqlalchemy_to_pydantic` in `src/server/storage/utils.py` |
| `Storage` | `storage_manager.dfy` | `src/server/storage/storage_manager.py` |
| `Routes` | `routes.dfy` | the query-building and `setattr` idioms the routes share |
| `Recipes`, `GroceryLists`, `GroceryListItems`, `MealPlanItems`, `Tags`, `Users` | one file each | `src/server/routes/*.py` |
| `GroceryItems` | `grocery_items.dfy` | the item rows `src/server/routes/grocery_lists.py` builds |
| `AsWritten` | `as_written.dfy` | the route code that names missing attributes, as written (see "## Findings") |
| `Text` | `text.dfy` | `str.split("\n")` as the grocery-list routes use it |
| `App` | `app.dfy` | `src/server/app.py` |

### Where the model follows the evident intent rather than the code

Six route defects are listed under "## Findings". For each, the module `AsWritten` models the
code as written, and the route modules model the evident intent. Three smaller points:

- `storage_manager.py` imports `UserIdMixin`, which `models.py` does not define. The model
  ignores the import.
- `update_user` has no `return`. The model returns an `Outcome` carrying no response body.
- `custom_generate_unique_id` reads `route.tags[0]`. The recipes and grocery-lists routers
  declare no tags, so for their routes the model gives IndexError, as the code does.

### Where the code and its tests disagree

The model follows the code.

- The grocery-list tests expect at most one list per user. The code has no such rule, and the
  model creates a new list on every request.
- An empty `extra_items` still splits into one empty line, since `"".split("\n") == [""]`. Every
  grocery list therefore gets at least one extra item. `GroceryLists.EmptyTextMakesOneEmptyItem`
  states this.
- The meal-plan tests expect items ordered by date, but the listing query has no ORDER BY.
  `MealPlanItems.ListMealPlanItems` promises the set of rows, not an order.
- `update_meal_plan_item` does not check that a new `recipe_id` belongs to the requester. The
  model, like the code, writes it unchecked.
- The tag tests (`src/server/tests/test_tags.py:15-19`) expect tags sorted by name, but the
  listing query (`src/server/routes/tags.py:23-27`) has no ORDER BY. `Tags.ListTags` promises the
  set of tags, not an order.
- The test fixtures (`src/server/tests/conftest.py:42-44`) create the names "Tag 0" to "Tag 9"
  twice, but `Tag.name` is unique (`src/server/storage/models.py:59`). `Tags.NameFree` states
  that a committed new tag's name was not in use, so the model refuses the second "Tag 0".
- The user tests (`src/server/tests/test_users.py:216-224`) expect 403 "Passwords can only be
  updated for same user as requester" when a plain user changes another user's password. The
  target is looked up through `safe_query` (`src/server/routes/users.py:129-131`), which limits
  a plain user to their own row, so even with the lookup corrected to `filter_by(id=id)` that
  request gives NoResultFound before the 403 check. `Users.OthersOutOfReach` states that the
  other row is out of reach, and `Users.UpdateUser` then answers NoResultFound. Only an admin
  can reach the 403.
- The grocery-list tests (`src/server/tests/test_grocery_lists.py:105-106` and `:189-190`)
  expect 404 "Grocery List with ID 1 does not exist" for another user's list. `get` and `delete`
  (`src/server/storage/storage_manager.py:66-69` and `:100-101`) raise 400 "GroceryList doesn't
  exist", and `GroceryLists.GetGroceryList` and `GroceryLists.DeleteGroceryList` give that.

## Model

| member | source | states |
|---|---|---|
| Models.With | src/server/storage/models.py:11-168 | replacing one table changes that table and no other |
| Models.Build | src/server/storage/models.py:24-34 | constructing a row fails exactly when a keyword is not a column; a built row has every column, keeps each given value, and takes the autoincremented key when no id is given |
| Models.Without | src/server/storage/models.py:11-168 | the rows left after removing a set of keys are exactly the others, unchanged |
| Models.DropRefs | src/server/storage/models.py:95-97 | the rows left are exactly those whose foreign key does not point at a removed parent, unchanged |
| Models.DeleteRecipes | src/server/storage/models.py:40-52 | deleting recipes removes their ingredients, steps, meal-plan items and tag associations, and touches no other table |
| Models.DeleteTags | src/server/storage/models.py:65-88 | deleting tags removes their association rows and nothing else |
| Models.DeleteGroceryLists | src/server/storage/models.py:145-156 | deleting grocery lists removes their items and nothing else |
| ModelFacts.TablesShaped | src/server/storage/models.py:11-168 | in a consistent store, every table's rows hold exactly their columns and sit under their own id |
| ModelFacts.ShrinkKeepsShape | src/server/storage/models.py:15-87 | deleting rows keeps rows shaped and keeps user names, tag names and association pairs unique |
| ModelFacts.ResolvesAfter | src/server/storage/models.py:35-39 | a kept row's foreign key still resolves when none of the removed parents is its target |
| ModelFacts.ResolvesKept | src/server/storage/models.py:35-39 | foreign keys into an untouched parent table keep resolving |
| ModelFacts.WithShrinks | src/server/storage/models.py:11-168 | replacing a table by some of its rows only deletes rows |
| ModelFacts.ConstraintsFrom | src/server/storage/models.py:11-168 | shaped tables, unique keys and resolving references together make the store consistent |
| ModelFacts.WithoutShrinks | src/server/storage/models.py:11-168 | removing keys keeps a sub-table |
| ModelFacts.DropRefsShrinks | src/server/storage/models.py:95-97 | dropping the rows that refer to removed parents keeps a sub-table |
| ModelFacts.DeleteRecipesShrinks | src/server/storage/models.py:40-52 | the recipe cascade only deletes rows |
| ModelFacts.DeleteTagsShrinks | src/server/storage/models.py:65-71 | the tag cascade only deletes rows |
| ModelFacts.DeleteGroceryListsShrinks | src/server/storage/models.py:145-147 | the grocery-list cascade only deletes rows |
| ModelFacts.DeleteRecipesKeepsConstraints | src/server/storage/models.py:40-52 | the recipe cascade leaves a consistent store |
| ModelFacts.DeleteRecipesRefs | src/server/storage/models.py:95-127 | after the recipe cascade, every foreign key of every class still resolves |
| ModelFacts.DeleteTagsKeepsConstraints | src/server/storage/models.py:65-88 | the tag cascade leaves a consistent store |
| ModelFacts.DeleteTagsRefs | src/server/storage/models.py:83-88 | after the tag cascade, every foreign key still resolves |
| ModelFacts.DeleteGroceryListsKeepsConstraints | src/server/storage/models.py:145-156 | the grocery-list cascade leaves a consistent store |
| ModelFacts.DeleteGroceryListsRefs | src/server/storage/models.py:154-156 | after the grocery-list cascade, every foreign key still resolves |
| ModelFacts.DeleteLeafKeepsConstraints | src/server/storage/models.py:74-168 | deleting one row of a class nothing refers to leaves a consistent store |
| ModelFacts.LeafShrinkKeepsConstraints | src/server/storage/models.py:74-168 | deleting any rows of a class nothing refers to leaves a consistent store |
| ModelFacts.LeafShrinkRefs | src/server/storage/models.py:74-168 | after such a deletion every foreign key still resolves |
| ModelFacts.DeleteUserKeepsConstraints | src/server/storage/models.py:35-39 | once a user's recipes, tags and grocery lists are gone, deleting the user leaves a consistent store |
| ModelFacts.DeleteUserRefs | src/server/storage/models.py:35-39 | the same deletion keeps every foreign key resolving |
| ModelFacts.DeleteUserCascadeKeepsConstraints | src/server/storage/models.py:35-39 | deleting a user with its whole cascade leaves a consistent store |
| ModelFacts.DeleteRowKeepsConstraints | src/server/storage/models.py:11-168 | deleting any row together with its cascade leaves a consistent store without that row |
| ModelFacts.DeleteRowGone | src/server/storage/models.py:11-168 | the deleted row is gone |
| ModelFacts.DeleteRecipeScope | src/server/storage/models.py:40-45 | deleting a recipe removes exactly that recipe and the ingredients, steps, meal-plan items and tag associations pointing at it; users, tags and grocery lists are untouched |
| ModelFacts.DeleteGroceryListScope | src/server/storage/models.py:145-147 | deleting a grocery list removes exactly it and its items, nothing else |
| ModelFacts.DeleteTagScope | src/server/storage/models.py:65-71 | deleting a tag removes exactly it and its associations, never a recipe |
| ModelFacts.OwnerExists | src/server/storage/models.py:18 | in a consistent store, every row but an association has an owner, the owner is an existing user, and a user owns itself |
| ModelFacts.OwnerThrough | src/server/storage/models.py:105 | the owner proxied through a parent row exists and is an existing user |
| ModelFacts.OwnerFrom | src/server/storage/models.py:18-168 | with resolving references, every row but an association has an owner that is an existing user, and a user owns itself |
| ModelFacts.OwnerOfUser | src/server/storage/models.py:18 | a user is its own owner (`user_id` is a synonym of `id`) |
| ModelFacts.OwnerStored | src/server/storage/models.py:21-168 | a recipe, tag or grocery list names its owner in `user_id`, an existing user |
| ModelFacts.NothingOwnedBy | src/server/storage/models.py:35-39 | a consistent store without user k has no row owned by k |
| ModelFacts.DeleteUserLeavesNothingOwned | src/server/storage/models.py:35-39 | after a user is deleted, no row of any class is owned by that user |
| ModelFacts.UsernameIdentifies | src/server/storage/models.py:15 | two users with the same name are the same user |
| TableEdits.ResolvesSameKeys | src/server/storage/models.py:35-39 | references into a table that lost no key still resolve |
| TableEdits.KeptTableOk | src/server/storage/models.py:11-168 | a table left alone stays consistent when the edited table lost no key |
| TableEdits.RowPutShaped | src/server/storage/models.py:11-168 | putting a shaped row under its own id keeps the table shaped |
| TableEdits.UniqueKept | src/server/storage/models.py:15-59 | editing a table without a unique key keeps every unique key unique |
| TableEdits.OneTableEdited | src/server/storage/models.py:11-168 | replacing a table without unique keys by a consistent one that keeps all its keys keeps every constraint |
| RowChecks.DefaultNotNull | src/server/storage/models.py:24-34 | every column default is a value, never NULL |
| RowChecks.BuiltShaped | src/server/storage/models.py:24-34 | the row a constructor builds from data that names only columns, gives no key and fills every NOT NULL column is shaped, keeps the data and carries the drawn key |
| RowChecks.BuiltChecks | src/server/storage/storage_manager.py:51-54 | the built row keeps the data's resolving references and unique values |
| RowChecks.ResolvesWithRow | src/server/storage/models.py:35-39 | a foreign key keeps resolving once a row whose value resolves is put in |
| RowChecks.RefsWithRow | src/server/storage/models.py:35-168 | every reference of a table keeps resolving once a row whose references resolve is put in |
| RowChecks.UniqueWithRow | src/server/storage/models.py:15-59 | a unique column stays unique once a row with a value no row has is put in under a new key |
| RowChecks.PairsWithRow | src/server/storage/models.py:74-88 | the (recipe, tag) pairs stay unique once a row with a new pair is put in |
| RowChecks.UniqueAfterRow | src/server/storage/models.py:15-88 | every unique key stays unique once a row that repeats none of them is put in |
| RowChecks.StagedOk | src/server/storage/storage_manager.py:53-54 | putting in a shaped row under a new key, with resolving references and no repeated unique value, keeps every constraint |
| RowChecks.PutOk | src/server/storage/models.py:11-168 | putting a shaped row with resolving references into one table keeps every constraint when the unique keys stay unique |
| RowChecks.PutTableOk | src/server/storage/models.py:11-168 | the table that received the row stays consistent |
| RowChecks.OthersOk | src/server/storage/models.py:11-168 | the other tables stay consistent when one table only gained keys |
| RowChecks.AllTablesOk | src/server/storage/models.py:11-168 | every table consistent and the unique keys unique make the store consistent |
| RowChecks.AheadShrinks | src/server/storage/models.py:14-153 | a store whose tables only lost rows stays behind the id sequence |
| RowChecks.AheadGrows | src/server/storage/models.py:14-153 | drawing the next id for a new row keeps the advanced sequence ahead of every key |
| Db.Staged | src/server/storage/storage_manager.py:53-54 | staging a row adds exactly its key, keeps the other rows and the other tables |
| Db.Insert | src/server/storage/storage_manager.py:51-54 | an insert fails with InvalidKeyword exactly on an unknown keyword and otherwise only with IntegrityError; a successful one yields a consistent store with one new row under a fresh key holding the data, every other row unchanged |
| Db.InsertStaysAhead | src/server/storage/storage_manager.py:53-54 | an insert under the drawn key leaves every key below the advanced id sequence |
| Db.InsertOk | src/server/storage/storage_manager.py:51-54 | an insert of a row that names only columns, gives no key, fills every NOT NULL column, whose references resolve and that repeats no unique value, succeeds under a free drawn key |
| Db.Replace | src/server/storage/storage_manager.py:97-98 | flushing a changed row succeeds exactly when the result is consistent |
| Db.Patch | src/server/routes/users.py:143 | a bulk UPDATE overwrites the given values in the selected rows and keeps every other row and every key |
| Db.UpdateWhere | src/server/routes/users.py:143-144 | a bulk UPDATE fails with InvalidKeyword on an unknown column and otherwise only with IntegrityError; on success the store is consistent, the table is patched and the others are unchanged |
| Db.Elems | src/server/storage/storage_manager.py:89-95 | the key set of a sequence holds exactly its elements |
| Db.ElemsSnoc | src/server/storage/storage_manager.py:89-95 | appending a key adds exactly that key |
| Db.ElemsAppend | src/server/storage/storage_manager.py:89-95 | the key set of a concatenation is the union |
| Db.GrownStep | src/server/storage/storage_manager.py:93 | one more insert extends the growth record of a list by its key |
| Db.GrownConcat | src/server/storage/storage_manager.py:93 | two growth records in a row combine into one |
| Db.GrownNothing | src/server/storage/storage_manager.py:93 | before the first insert nothing has grown |
| Db.RunFitsAt | src/server/storage/storage_manager.py:93 | every row of a fitting run names only columns of the child class |
| Db.RunNextOk | src/server/storage/storage_manager.py:93 | the next row of an accepted run goes in under a key the sequence is ahead of |
| Db.RunNextChecks | src/server/storage/storage_manager.py:93 | the next row of an accepted run gives no key, fills every NOT NULL column, resolves its references and repeats no unique value |
| Db.RefsCarry | src/server/storage/storage_manager.py:93 | a new row's references resolve alike in stores that differ only in the child class |
| Db.PairsCarry | src/server/storage/models.py:74-88 | the next association row of an accepted run pairs its recipe with a tag no row pairs it with yet |
| Db.ConcatFresh | src/server/storage/storage_manager.py:93 | keys fresh in each step are fresh overall |
| Db.ConcatDistinct | src/server/storage/storage_manager.py:93 | keys distinct in each step are distinct overall |
| Db.ConcatExtends | src/server/storage/storage_manager.py:93 | each new row still holds its data after later inserts |
| Db.GrownRelinks | src/server/storage/storage_manager.py:91-93 | clearing a list and adding the new members leaves exactly the new members linked, each with its data, and every unrelated row as it was |
| Db.GrownNoStrangers | src/server/storage/storage_manager.py:91-93 | no unlinked row appears that was not there before |
| Db.GrownMembers | src/server/storage/storage_manager.py:91-93 | after the refill, the rows linked to the parent are exactly the new ones |
| Db.OldRowsStayUnlinked | src/server/storage/storage_manager.py:91-93 | a row linked after the refill is not one of the cleared table's rows |
| Db.NewRowLinked | src/server/storage/storage_manager.py:93 | each new member points at the parent |
| Db.RelinkedFrame | src/server/storage/storage_manager.py:89-95 | relinking a list survives changes to other tables |
| Db.ChildOfDistinct | src/server/storage/models.py:40-52 | the list relationships of a class keep their members in different classes, none of them referred to by others |
| Db.ProcessedStep | src/server/storage/storage_manager.py:89-95 | replacing one more list keeps every list replaced so far |
| Db.NewChildUntouched | src/server/storage/storage_manager.py:89-95 | the members of a list not yet replaced are still the original ones |
| Db.ProcessedJoin | src/server/storage/storage_manager.py:89-95 | the lists replaced so far plus the new one make the next stage |
| Db.EarlierListsKept | src/server/storage/storage_manager.py:89-95 | replacing one list does not disturb the lists replaced before |
| Db.RunAcceptedCarry | src/server/storage/storage_manager.py:89-95 | a run stays accepted while its class and the keys of the classes rows refer to stay as they were |
| Db.RefsCarryKeys | src/server/storage/storage_manager.py:89-95 | references resolve alike in stores whose referred-to classes hold the same keys |
| Db.ListAcceptedCarry | src/server/storage/storage_manager.py:89-95 | an accepted list stays accepted while its member class and the referred-to keys stay as they were |
| Db.SavedStaysAccepted | src/server/storage/storage_manager.py:95-98 | writing new column values over a row keeps the row's lists accepted and the sequence ahead |
| Db.ProcessedNothing | src/server/storage/storage_manager.py:89-95 | before the first list nothing is relinked and nothing changed |
| Db.DroppedAccepts | src/server/storage/storage_manager.py:92-93 | once a list's old members are gone, an accepted list is a run the store accepts, and the sequence stays ahead |
| Db.StillAccepted | src/server/storage/storage_manager.py:89-95 | a list not yet relinked stays accepted while earlier lists are relinked |
| Db.ParentsKept | src/server/storage/storage_manager.py:89-95 | relinking lists changes only classes nothing refers to |
| Db.ShrunkStaysAhead | src/server/storage/storage_manager.py:92 | a store that lost rows of one class stays behind the sequence |
| Db.Session.constructor | src/server/app.py:27 | a new session sees the committed store and is open |
| Db.Session.Add | src/server/storage/storage_manager.py:53-54 | add plus flush: on success the store is the insert's result and the key is returned; an IntegrityError rolls back to the last commit; any other error leaves the store unchanged |
| Db.Session.Save | src/server/storage/storage_manager.py:97-98 | flushing a changed row: the new store on success, a rollback to the last commit on failure |
| Db.Session.Remove | src/server/storage/storage_manager.py:115-116 | delete plus flush leaves exactly the store of the cascade |
| Db.Session.RemoveChildren | src/server/storage/storage_manager.py:92 | clearing a list drops exactly the rows pointing at the parent |
| Db.Session.AddChildren | src/server/storage/storage_manager.py:93 | extending a list inserts one row per member, in order, each under a fresh key and pointing at the parent |
| Db.Session.AddNext | src/server/storage/storage_manager.py:93 | one more member is inserted and recorded |
| Db.Session.ReplaceMembers | src/server/storage/storage_manager.py:89-95 | every list-valued attribute given is cleared and refilled with exactly the new members; a failure rolls back to the last commit and is InvalidKeyword or IntegrityError; with no list the store stays as it was; lists the database accepts always succeed |
| Db.Session.ReplaceList | src/server/storage/storage_manager.py:91-93 | one list is cleared and refilled |
| Db.Session.ReplaceFrom | src/server/storage/storage_manager.py:89-95 | relinks the lists not yet relinked; a failure rolls back and is InvalidKeyword or IntegrityError; lists the database accepts are all relinked |
| Db.Session.Execute | src/server/routes/users.py:144 | executing a bulk UPDATE leaves the store of `UpdateWhere`, or rolls back on IntegrityError |
| Db.Session.Commit | src/server/app.py:30 | the committed store becomes the current one |
| Db.Session.Rollback | src/server/app.py:32 | the current store goes back to the committed one |
| Db.Session.Close | src/server/app.py:37 | closing discards uncommitted work and ends the session |
| Query.Matching | src/server/storage/utils.py:115-125 | the matching keys are exactly the rows that meet every condition |
| Query.SafeQuery | src/server/storage/utils.py:115-125 | the statement keeps its kind and class, and gets the condition `user_id == user.id` exactly when the requester's role is "user" |
| Query.Where | src/server/storage/utils.py:123 | adding conditions keeps the statement and conjoins them |
| Query.EqConds | src/server/storage/storage_manager.py:37 | `filter_by(**filters)` gives one equality per filter and nothing else |
| Query.SafeQueryMatchesVisible | src/server/storage/utils.py:115-125 | a restricted query reaches exactly the rows the requester may see that meet the extra conditions |
| Query.IdFilterAtMostOne | src/server/storage/storage_manager.py:58-71 | filtering by id reaches at most that row |
| Query.SingletonOrMore | src/server/storage/storage_manager.py:66 | a set holding k is {k} exactly when it has one element |
| Query.OneOrNone | src/server/storage/storage_manager.py:66 | `one_or_none`: None exactly when nothing matches, the single match when one does, MultipleResultsFound exactly when several do |
| Query.One | src/server/routes/tags.py:57 | `one`: the single match, NoResultFound exactly when nothing matches, otherwise MultipleResultsFound |
| Query.Inhabited | src/server/storage/storage_manager.py:39-42 | a non-empty set has an element |
| Query.LeastExists | src/server/storage/storage_manager.py:39-40 | every non-empty set of rows has one whose sort key is least |
| Query.ValueLeReflexive | src/server/storage/storage_manager.py:39-40 | the sort order is reflexive |
| Query.PickNext | src/server/storage/storage_manager.py:39-42 | the next row fetched is one of those left, and the least of them when an order is given |
| Query.Fetch | src/server/storage/storage_manager.py:42 | `all()` lists every matching row exactly once, in ascending order of the sort column when one is given |
| Ordering.StrLeReflexive | src/server/storage/storage_manager.py:39-40 | string order is reflexive |
| Ordering.StrLeTotal | src/server/storage/storage_manager.py:39-40 | any two strings are ordered |
| Ordering.StrLeTransitive | src/server/storage/storage_manager.py:39-40 | string order is transitive |
| Ordering.StrLeAntisymmetric | src/server/storage/storage_manager.py:39-40 | strings ordered both ways are equal |
| Ordering.ValueLeTotal | src/server/storage/storage_manager.py:39-40 | any two column values are ordered |
| Ordering.ValueLeTransitive | src/server/storage/storage_manager.py:39-40 | the value order is transitive |
| Ordering.ValueLeAntisymmetric | src/server/storage/storage_manager.py:39-40 | values ordered both ways are equal |
| Schema.Keys | src/server/storage/utils.py:39-42 | the attribute names are exactly the keys of the mapper's attributes |
| Schema.SqlalchemyToPydantic | src/server/storage/utils.py:27-85 | the generated model has one field per column attribute that is included and not excluded, plus the additional attributes, which override; its name is the given one or the class name |
| Schema.AttrKeys | src/server/storage/utils.py:39-42 | the loop collects exactly the attribute names |
| Schema.KeptColumnFields | src/server/storage/utils.py:57-80 | the loop builds exactly the fields of the kept column attributes |
| Schema.FieldsAreKeptColumns | src/server/storage/utils.py:57-65 | a field exists exactly for a kept column attribute; relationships never become fields |
| Schema.FieldOfColumn | src/server/storage/utils.py:61-80 | each kept column's field is the one built from that column |
| Schema.RequiredIffNoDefault | src/server/storage/utils.py:74-80 | unless all fields are optional, a field is required exactly when its column has no default and is not nullable |
| Schema.AllOptional | src/server/storage/utils.py:67-72 | with `all_fields_optional` every field is optional with default None |
| Schema.DefaultsOptional | src/server/storage/utils.py:77-79 | with `treat_default_as_optional` every field that is not required has an optional type |
| Schema.SchemaFields | src/server/storage/utils.py:54-82 | a field exists exactly for an additional attribute or an included, non-excluded column; additional attributes take precedence |
| Storage.AttrFilters | src/server/storage/storage_manager.py:37 | the plain filters are exactly the non-date keys, with their values |
| Storage.ListMatches | src/server/storage/storage_manager.py:19-42 | the list query reaches exactly the rows the requester may see whose date is within the given bounds, both ends included, and that equal every other filter |
| Storage.FiltersHold | src/server/storage/storage_manager.py:30-37 | a row meets the filter conditions exactly when it meets the date bounds and the equalities |
| Storage.PopBounds | src/server/storage/storage_manager.py:30-36 | popping the dates yields their bound conditions and removes exactly those two keys |
| Storage.PoppedKeepsAttrs | src/server/storage/storage_manager.py:33-37 | popping the dates leaves the equality filters as they were |
| Storage.Stamp | src/server/storage/storage_manager.py:47-49 | a class with a `user_id` column gets the requester's id, whatever the data says; every other value is kept and nothing else is added |
| Storage.StampedIsOwn | src/server/storage/storage_manager.py:48-49 | a row created with the stamp is owned by, and visible to, the requester |
| Storage.ScopedRow | src/server/storage/storage_manager.py:61-64 | get, update and delete reach exactly the visible rows with every filtered value |
| Storage.IdScope | src/server/storage/storage_manager.py:61-64 | filtering by id reaches that row exactly when the requester may see it, and never several rows |
| Storage.Scalars | src/server/storage/storage_manager.py:94-95 | the column values of an update are exactly its scalar entries |
| Storage.Lists | src/server/storage/storage_manager.py:91-93 | the list values of an update are exactly its list entries |
| Storage.Assignments | src/server/storage/storage_manager.py:89-95 | splitting an update succeeds exactly when every key names a fitting attribute; otherwise NoSuchAttribute or WrongType for some key |
| Storage.SortedValues | src/server/storage/storage_manager.py:89-95 | the split values are the columns and lists of the update |
| Storage.SavedThenRelinked | src/server/storage/storage_manager.py:89-98 | writing the columns and then refilling the lists yields the updated store |
| Storage.UpdatedScalars | src/server/storage/storage_manager.py:94-98 | an update that replaces no list changes the one row and nothing else |
| Storage.StorageManager.constructor | src/server/storage/storage_manager.py:15-17 | the manager binds one session and one requester |
| Storage.StorageManager.List | src/server/storage/storage_manager.py:19-42 | lists every row the query reaches exactly once, sorted by the order column when one is given; fails with NoSuchAttribute when a filter names an unknown attribute; the date keys are popped from the filters |
| Storage.StorageManager.Create | src/server/storage/storage_manager.py:44-56 | inserts the stamped data: on success the new row holds it and is owned by the requester; failures are those of the insert |
| Storage.StorageManager.Get | src/server/storage/storage_manager.py:58-71 | returns the single visible row with the filtered values; 400 "<Class> doesn't exist" exactly when none matches; MultipleResultsFound exactly when several do |
| Storage.StorageManager.Update | src/server/storage/storage_manager.py:73-100 | finds the row as get does, overwrites the given columns and refills the given lists; errors before the flush leave the store as it was, a failed flush rolls back |
| Storage.StorageManager.SetValues | src/server/storage/storage_manager.py:89-98 | writes the columns and refills the lists of one row |
| Storage.StorageManager.Flush | src/server/storage/storage_manager.py:97-98 | flushes the changed row and lists, or rolls back |
| Storage.StorageManager.FlushAssigned | src/server/storage/storage_manager.py:97-98 | flushes the new column values and lists of row k: the updated store on success, a rollback otherwise; without lists it succeeds exactly when the changed row keeps every constraint; with accepted lists and such a row it succeeds |
| Storage.StorageManager.Delete | src/server/storage/storage_manager.py:102-118 | finds the row as get does and deletes it with its cascade; every error leaves the store unchanged |
| Storage.Unstamped | src/server/storage/storage_manager.py:48 | classes without a `user_id` column get the data unchanged |
| Storage.ChildInserted | src/server/storage/storage_manager.py:44-56 | one created child extends the growth record |
| Storage.CreateEach | src/server/routes/recipes.py:138-147 | creating the children one by one inserts one row per item, in order, each pointing at the parent; a failure rolls back |
| Storage.CreateNext | src/server/routes/recipes.py:138-147 | one more child is created and recorded |
| Routes.FindById | src/server/routes/tags.py:57 | `one()` on the restricted id query finds row id exactly when the requester may see it, else NoResultFound |
| Routes.AddAndCommit | src/server/routes/tags.py:42-43 | add plus commit: one new row holding the data, other tables unchanged, everything committed; or an IntegrityError and a rollback |
| Routes.SaveAndCommit | src/server/routes/tags.py:62-63 | saving a changed row commits exactly when the result is consistent, otherwise rolls back |
| Routes.Given | src/server/routes/tags.py:25-27 | the applied parameters are exactly those not None |
| Routes.FilterBy | src/server/routes/tags.py:25-27 | the parameter loop adds one equality per parameter that is not None |
| Routes.ParamsMatch | src/server/routes/tags.py:23-27 | the filtered query reaches exactly the visible rows that hold every parameter given |
| Routes.SatisfiesBoth | src/server/routes/tags.py:23-27 | meeting two sets of conditions is meeting each |
| Routes.ParamsSatisfied | src/server/routes/tags.py:25-27 | the parameter conditions hold exactly when the row holds every parameter |
| Routes.SetAttrs | src/server/routes/tags.py:59-60 | the `setattr` loop overlays the request on the row |
| Routes.Overlaid | src/server/routes/tags.py:59-60 | any row agreeing with the overlay on every key is the overlay |
| Routes.OnlySuppliedChange | src/server/routes/tags.py:59-60 | the overlay keeps the columns, sets each supplied one and keeps every other |
| Recipes.IngredientRows | src/server/routes/recipes.py:138-141 | one row per ingredient, given its index as position |
| Recipes.StepRows | src/server/routes/recipes.py:143-144 | one row per step text, holding it and its index as position |
| Recipes.TagRows | src/server/routes/recipes.py:146-147 | one association per tag id |
| Recipes.IngredientRowsFit | src/server/routes/recipes.py:138-141 | ingredient rows name only Ingredient columns |
| Recipes.StepRowsFit | src/server/routes/recipes.py:143-144 | step rows name only Step columns |
| Recipes.TagRowsFit | src/server/routes/recipes.py:146-147 | association rows name only its columns |
| Recipes.IngredientFills | src/server/routes/recipes.py:138-141 | a complete ingredient, given its position and recipe, fills every NOT NULL column and gives no key |
| Recipes.IngredientsAccepted | src/server/routes/recipes.py:138-141 | the ingredients of an existing recipe go in when each is complete |
| Recipes.StepsAccepted | src/server/routes/recipes.py:143-144 | the steps of an existing recipe always go in |
| Recipes.TagsAccepted | src/server/routes/recipes.py:146-147 | the associations of an existing recipe without any go in when the tags exist and are distinct |
| Recipes.RecipeInsertOk | src/server/routes/recipes.py:136 | a recipe of an existing user that names only columns, gives no key and fills every NOT NULL column goes in |
| Recipes.NamedListed | src/server/routes/recipes.py:117-121 | the list query reaches exactly the visible recipes with the given name |
| Recipes.ListRecipes | src/server/routes/recipes.py:113-123 | lists each visible recipe with the given name exactly once, sorted by name |
| Recipes.NoChildrenYet | src/server/routes/recipes.py:136 | a freshly created recipe has no children |
| Recipes.NewMembers | src/server/routes/recipes.py:138-147 | the children created for a new recipe are its whole list |
| Recipes.NothingToDrop | src/server/routes/recipes.py:136-147 | dropping the references to a new key removes nothing |
| Recipes.RelinkedKept | src/server/routes/recipes.py:138-147 | the children stay in place while other lists are created |
| Recipes.PositionsFollowRequest | src/server/routes/recipes.py:138-144 | the i-th child has position i and every value the request gave it |
| Recipes.AddMembers | src/server/routes/recipes.py:138-147 | creating one list of children relinks it |
| Recipes.Built | src/server/routes/recipes.py:136-147 | the three lists together make the created recipe's children |
| Recipes.AddRecipe | src/server/routes/recipes.py:136 | adds the recipe row owned by the requester; InvalidKeyword exactly on an unknown field, with nothing changed; otherwise an IntegrityError and a rollback; succeeds on valid data of an existing user |
| Recipes.AddIngredients | src/server/routes/recipes.py:138-141 | adds exactly the ingredients, in order with positions, pointing at the recipe; succeeds when each is complete |
| Recipes.AddSteps | src/server/routes/recipes.py:143-144 | adds exactly one step per text, in order with positions; always succeeds for an existing recipe |
| Recipes.AddTags | src/server/routes/recipes.py:146-147 | adds exactly one association per tag id; succeeds when the tags exist and are distinct |
| Recipes.AddStepsAndTags | src/server/routes/recipes.py:143-147 | adds the steps, then the associations, and touches no other table |
| Recipes.CreateChildren | src/server/routes/recipes.py:138-147 | creates the ingredients, steps and tag associations of a new recipe, or rolls back |
| Recipes.CreateRecipe | src/server/routes/recipes.py:126-149 | creates the recipe owned by the requester, then exactly its ingredients, steps and tag associations in request order with positions; InvalidKeyword exactly on an unknown field, with the store unchanged; any other failure is an IntegrityError and a rollback; it succeeds when the data names only columns and fills every NOT NULL column, the requester exists and the children are accepted (complete ingredients, existing distinct tags) |
| Recipes.GetRecipe | src/server/routes/recipes.py:152-154 | returns recipe id exactly when the requester may see it, else 400 "Recipe doesn't exist" |
| Recipes.RecipeChanges | src/server/routes/recipes.py:163-186 | only non-empty lists become list assignments |
| Recipes.ChangesSplit | src/server/routes/recipes.py:163-186 | the changes split into the request's columns and exactly the non-empty lists |
| Recipes.ScalarsOfChanges | src/server/routes/recipes.py:163-186 | the column changes are exactly the request's fields |
| Recipes.ListOfUpdate | src/server/routes/recipes.py:169-186 | a list left empty keeps its children; a list given is replaced by exactly the new members |
| Recipes.UpdateRecipe | src/server/routes/recipes.py:157-188 | 400 "Recipe doesn't exist" exactly when the requester cannot see it; on success the fields are overwritten and each non-empty ingredient, step and tag list is replaced, in order with positions, while an empty one is kept; it succeeds on a visible recipe when the new values keep every constraint and the children are accepted |
| Recipes.FieldsAreColumns | src/server/routes/recipes.py:163-188 | a successful update named only Recipe columns |
| Recipes.ChangesFit | src/server/routes/recipes.py:163-188 | the changes fit Recipe when the request names only its columns |
| Recipes.ChangeListsAccepted | src/server/routes/recipes.py:169-186 | the new lists of an existing recipe are accepted when the ingredients are complete and the tags exist and differ |
| Recipes.IngredientListAccepted | src/server/routes/recipes.py:169-174 | complete ingredients are an accepted list |
| Recipes.StepListAccepted | src/server/routes/recipes.py:176-180 | steps are always an accepted list |
| Recipes.TagListAccepted | src/server/routes/recipes.py:182-186 | existing distinct tags are an accepted list |
| Recipes.UpdateOutcome | src/server/routes/recipes.py:157-188 | the update's outcome restated for the route |
| Recipes.ListsReplaced | src/server/routes/recipes.py:169-186 | each of the three lists is replaced or kept |
| Recipes.DeleteRecipe | src/server/routes/recipes.py:191-193 | deletes a visible recipe with exactly its ingredients, steps, meal-plan items and associations; otherwise 400 and nothing changes |
| GroceryItems.RecipeItem | src/server/routes/grocery_lists.py:67-81 | an item made from an ingredient copies its quantity, unit, name and comment and the recipe's name and servings, is active, and is not an extra item |
| GroceryItems.ExtraItem | src/server/routes/grocery_lists.py:85-96 | an extra item is active, named by its line, with quantity 0, servings 1 and recipe name "Extra Items" |
| GroceryItems.RecipeItems | src/server/routes/grocery_lists.py:66-81 | one item per ingredient, in order |
| GroceryItems.ExtraItemRows | src/server/routes/grocery_lists.py:83-96 | one extra item per line, in order |
| GroceryLists.ExtraItemsFromText | src/server/routes/grocery_lists.py:83-84 | the text gives one extra item per newline plus one, each named by its line, and the lines joined back give the text |
| GroceryLists.EmptyTextMakesOneEmptyItem | src/server/routes/grocery_lists.py:62-63 | no extra text still makes one extra item with an empty name |
| GroceryLists.SourcedRows | src/server/routes/grocery_lists.py:65-81 | one recipe item per (entry, ingredient) pair |
| GroceryLists.PairsOf | src/server/routes/grocery_lists.py:66 | pairs one entry with each of its recipe's ingredients |
| GroceryLists.CoversStep | src/server/routes/grocery_lists.py:65-66 | one more entry extends the pairs covered |
| GroceryLists.SourcedRowsAppend | src/server/routes/grocery_lists.py:65-81 | the items of more pairs follow the earlier items |
| GroceryLists.NoItemsYet | src/server/routes/grocery_lists.py:63 | a new grocery list has no items |
| GroceryLists.PlannedRecipe | src/server/routes/grocery_lists.py:66 | a planned entry's recipe exists |
| GroceryLists.ItemsRunAccepted | src/server/routes/grocery_lists.py:65-96 | item rows of an existing list that fill every NOT NULL column form an accepted run |
| GroceryLists.RecipeItemsAccepted | src/server/routes/grocery_lists.py:66-81 | the items of a planned recipe are accepted for an existing list |
| GroceryLists.OrderStep | src/server/routes/grocery_lists.py:65-66 | one more entry keeps the pairs in entry order |
| GroceryLists.NothingYet | src/server/routes/grocery_lists.py:65 | before the first entry nothing is covered and nothing is grown |
| GroceryLists.CreateRecipeStep | src/server/routes/grocery_lists.py:65-81 | one round of the loop adds the entry's items and keeps the loop's bookkeeping; succeeds when the list exists |
| GroceryLists.GrownEmits | src/server/routes/grocery_lists.py:65-96 | items created one by one are exactly the new items of the list |
| GroceryItems.RecipeItemsFit | src/server/routes/grocery_lists.py:67-81 | recipe items name only item columns |
| GroceryItems.ExtraItemsFit | src/server/routes/grocery_lists.py:85-96 | extra items name only item columns |
| GroceryItems.ItemFills | src/server/storage/models.py:150-168 | an item giving the list, quantity, name, recipe name, servings and extra flag, none NULL, fills every NOT NULL column (`active` has a default) |
| GroceryItems.StoredValue | src/server/storage/models.py:11-168 | a stored row holds a value that is not NULL in every NOT NULL column |
| GroceryItems.RecipeItemFills | src/server/routes/grocery_lists.py:67-81 | an item copied from an ingredient and a recipe with non-NULL quantity, names and servings fills every NOT NULL column |
| GroceryItems.StoredItemFills | src/server/routes/grocery_lists.py:67-81 | so does every item copied from a stored ingredient of a stored recipe |
| GroceryItems.ExtraItemFills | src/server/routes/grocery_lists.py:85-96 | an extra item fills every NOT NULL column and gives no key |
| GroceryItems.ExtraItemsAccepted | src/server/routes/grocery_lists.py:84-96 | the extra items are accepted for an existing list |
| GroceryLists.SourcedRowsFit | src/server/routes/grocery_lists.py:65-81 | every sourced item names only item columns |
| GroceryLists.ListRowsAppend | src/server/routes/grocery_lists.py:65-96 | the two item loops make one sequence of item rows |
| GroceryLists.CreateItems | src/server/routes/grocery_lists.py:84-96 | creates each item in order, or rolls back |
| GroceryLists.DateRange | src/server/routes/grocery_lists.py:56-59 | the filters hold exactly the two dates |
| GroceryLists.DateRangeKnown | src/server/routes/grocery_lists.py:56-61 | the date filters name known attributes |
| GroceryLists.PlannedMeals | src/server/routes/grocery_lists.py:61 | lists each visible meal-plan entry within the dates exactly once |
| GroceryLists.RecipeDone | src/server/routes/grocery_lists.py:65-81 | one more entry's items extend the items created so far |
| GroceryLists.CreateRecipeRun | src/server/routes/grocery_lists.py:66-81 | lists the entry's recipe's ingredients, each once, and creates one item per ingredient in that order, pointing at the list; a failure is an IntegrityError and a rollback; it succeeds when the list exists |
| GroceryLists.CreateRecipeItems | src/server/routes/grocery_lists.py:65-81 | for each listed entry in order, one item per ingredient of its recipe, pointing at the list, each (entry, ingredient) pair once and in entry order; a failure is an IntegrityError and a rollback; it succeeds when the list exists |
| GroceryLists.CreateList | src/server/routes/grocery_lists.py:62-63 | creates the list owned by the requester with the extra text |
| GroceryLists.ListInsertOk | src/server/routes/grocery_lists.py:63 | a list of an existing user goes in |
| GroceryLists.ListChecks | src/server/routes/grocery_lists.py:63 | the new list names only columns, fills every NOT NULL column, and its owner exists |
| GroceryLists.CreateListItems | src/server/routes/grocery_lists.py:65-96 | the items of a new list: one per ingredient of each entry's recipe in entry order, then one per line; only the item table changes; succeeds when the list exists |
| GroceryLists.ListsOnly | src/server/routes/grocery_lists.py:63-96 | only the grocery-list tables change |
| GroceryLists.CreateGroceryList | src/server/routes/grocery_lists.py:49-98 | lists the requester's entries within the dates, sorted by date, creates a new list holding the extra text (or "") owned by the requester, then one item per ingredient of each entry's recipe in entry order and one extra item per line, and changes no other table; a failure is an IntegrityError and rolls back; it succeeds whenever the requester exists |
| GroceryLists.FinishCreate | src/server/routes/grocery_lists.py:83-98 | the recipe items and the extra items together are the list's new items |
| GroceryLists.ExtraKeys | src/server/routes/grocery_lists.py:107-109 | the old extra items of a list are exactly its items flagged extra |
| GroceryLists.ItemVisible | src/server/routes/grocery_lists.py:107-109 | an item of a visible list is visible |
| GroceryLists.ExtraFiltersKnown | src/server/routes/grocery_lists.py:107-109 | the filters name known attributes |
| GroceryLists.ExtraItemListed | src/server/routes/grocery_lists.py:107-109 | an extra item of the list is listed |
| GroceryLists.ExtraRowListed | src/server/routes/grocery_lists.py:107-109 | a listed row is an extra item of the list |
| GroceryLists.ExtrasOfList | src/server/routes/grocery_lists.py:107-109 | the list query reaches exactly the old extra items of a visible list |
| GroceryLists.EnumeratedElems | src/server/routes/grocery_lists.py:111-112 | a listing holds exactly the set it enumerates |
| GroceryLists.OldExtraItems | src/server/routes/grocery_lists.py:107-109 | lists the old extra items of the list, each once |
| GroceryLists.ItemDeleted | src/server/routes/grocery_lists.py:111-112 | each deleted item is gone and the other items stay |
| GroceryLists.DeleteItem | src/server/routes/grocery_lists.py:112 | deletes one item |
| GroceryLists.DeleteItems | src/server/routes/grocery_lists.py:111-112 | deletes exactly the old extra items |
| GroceryLists.StillThere | src/server/routes/grocery_lists.py:111-112 | the items not yet deleted are still there |
| GroceryLists.SetExtraText | src/server/routes/grocery_lists.py:114-115 | stores the new extra text on the list |
| GroceryLists.TextAssignment | src/server/routes/grocery_lists.py:115 | the update sets exactly the extra text |
| GroceryLists.SetOne | src/server/routes/grocery_lists.py:115 | overlaying one column sets it |
| GroceryLists.DeletedThenGrown | src/server/routes/grocery_lists.py:111-130 | deleting the old items and creating new ones replaces them |
| GroceryLists.ExtrasReplaced | src/server/routes/grocery_lists.py:117-130 | the new extra items are one per line of the new text |
| GroceryLists.SameLists | src/server/routes/grocery_lists.py:111-112 | deleting items keeps the lists |
| GroceryLists.TextKeepsConstraints | src/server/routes/grocery_lists.py:114-115 | a list with a new text still meets every constraint |
| GroceryLists.TextTableOk | src/server/routes/grocery_lists.py:114-115 | the list table with one new text stays consistent |
| GroceryLists.DeletionsStayAhead | src/server/routes/grocery_lists.py:111-112 | deleting items keeps the sequence ahead |
| GroceryLists.ReplaceExtras | src/server/routes/grocery_lists.py:114-130 | once the old extra items are gone: 400 exactly when the list is not visible; otherwise the text is set and one extra item per line replaces the deleted ones, no other table changes, and it succeeds |
| GroceryLists.TextStaysAhead | src/server/routes/grocery_lists.py:115 | setting a text keeps the sequence ahead |
| GroceryLists.UpdateGroceryList | src/server/routes/grocery_lists.py:101-132 | for a visible list: deletes exactly its old extra items, stores the new text and creates one extra item per line; other item rows and tables stay; 400 "GroceryList doesn't exist" exactly when the list is not visible, with nothing changed; a visible list is always updated |
| GroceryLists.GetGroceryList | src/server/routes/grocery_lists.py:135-137 | returns the list exactly when the requester may see it, else 400 |
| GroceryLists.DeleteGroceryList | src/server/routes/grocery_lists.py:140-142 | deletes a visible list with exactly its items; otherwise 400 and nothing changes |
| GroceryListItems.Toggled | src/server/routes/grocery_list_items.py:20 | the item's `active` becomes the negation of its truth value; every other column is kept |
| GroceryListItems.ToggleTwice | src/server/routes/grocery_list_items.py:20 | toggling twice gives the item back |
| GroceryListItems.ToggleKeepsConstraints | src/server/routes/grocery_list_items.py:20-23 | toggling an item keeps the store consistent |
| GroceryListItems.ToggledItemOk | src/server/routes/grocery_list_items.py:20-23 | the toggled item table stays consistent |
| GroceryListItems.ToggledTableShaped | src/server/routes/grocery_list_items.py:20 | the toggled table stays shaped |
| GroceryListItems.ToggledRefsResolve | src/server/routes/grocery_list_items.py:20 | the toggled items still point at existing lists |
| GroceryListItems.ToggledShaped | src/server/routes/grocery_list_items.py:20 | a toggled row stays shaped |
| GroceryListItems.ToggleGroceryListItem | src/server/routes/grocery_list_items.py:12-23 | toggles exactly that item's `active` and commits, exactly when the requester may see it; otherwise NoResultFound and nothing changes |
| MealPlanItems.RangeMatch | src/server/routes/meal_plan_items.py:30-36 | the query reaches a row exactly when it is visible, dated within the range, both ends included, and holds every parameter |
| MealPlanItems.RangeHolds | src/server/routes/meal_plan_items.py:30-32 | the two date conditions hold exactly when the date is in range |
| MealPlanItems.RangeMatches | src/server/routes/meal_plan_items.py:30-36 | the query reaches exactly the listed items |
| MealPlanItems.ListMealPlanItems | src/server/routes/meal_plan_items.py:22-38 | lists each visible item within the dates that holds every parameter, exactly once |
| MealPlanItems.OwnedThroughRecipe | src/server/routes/meal_plan_items.py:49-53 | an item on a visible recipe is visible |
| MealPlanItems.ItemInsertOk | src/server/routes/meal_plan_items.py:49-56 | an item for an existing recipe that fills every NOT NULL column goes in under a free key |
| MealPlanItems.ItemChecks | src/server/routes/meal_plan_items.py:53 | such an item names only columns, gives no key and resolves its recipe |
| MealPlanItems.CreateMealPlanItem | src/server/routes/meal_plan_items.py:41-58 | NoResultFound exactly when the recipe is not visible; otherwise one new item holding the data, visible to the requester, committed |
| MealPlanItems.GetMealPlanItem | src/server/routes/meal_plan_items.py:61-65 | returns the item exactly when the requester may see it, else NoResultFound |
| MealPlanItems.UpdateMealPlanItem | src/server/routes/meal_plan_items.py:68-87 | NoResultFound exactly when the item is not visible; otherwise the given values overwrite the item's and the change is committed |
| MealPlanItems.DeleteMealPlanItem | src/server/routes/meal_plan_items.py:90-101 | deletes exactly a visible item and commits; otherwise NoResultFound and nothing changes |
| Tags.TagsMatch | src/server/routes/tags.py:23-27 | the query reaches exactly the visible tags holding every parameter |
| Tags.ListTags | src/server/routes/tags.py:17-29 | lists each such tag exactly once |
| Tags.TagRow | src/server/routes/tags.py:40 | the new tag holds the request and the requester as owner |
| Tags.TagAdded | src/server/routes/tags.py:40 | the stored tag holds the request's values and the requester as owner |
| Tags.NameFree | src/server/routes/tags.py:40-43 | a committed new tag's name was not used by any tag |
| Tags.TagInsertOk | src/server/routes/tags.py:40-43 | a tag with a name no tag uses, owned by an existing user, goes in under a free key |
| Tags.TagChecks | src/server/routes/tags.py:40 | such a tag names only columns, fills every NOT NULL column and repeats no name |
| Tags.CreateTag | src/server/routes/tags.py:32-45 | creates one tag holding the data, owned by the requester, and commits; a name already used by any tag makes it fail with an IntegrityError and a rollback |
| Tags.UpdateTag | src/server/routes/tags.py:48-65 | NoResultFound exactly when the tag is not visible; otherwise the given values overwrite the tag's and the change is committed or rolled back |
| Tags.RenameClash | src/server/routes/tags.py:59-63 | renaming a tag to another tag's name breaks the uniqueness of tag names (models.py:59), so the commit fails |
| Tags.DeleteTag | src/server/routes/tags.py:68-77 | deletes a visible tag with exactly its associations, never a recipe; otherwise NoResultFound and nothing changes |
| Users.UsernameMatch | src/server/routes/users.py:40 | `filter_by(username=...)` reaches exactly the users with that name |
| Users.AtMostOneNamed | src/server/routes/users.py:40 | at most one user has a given name |
| Users.AuthenticateUser | src/server/routes/users.py:39-47 | succeeds exactly when the named user exists and the password verifies against its hash, returning that user; otherwise "User '...' doesn't exist" or "Incorrect password for user '...'" |
| Users.OnlyNamed | src/server/routes/users.py:40-45 | with one user of that name, authentication is the password check against its hash |
| Users.CreateToken | src/server/routes/users.py:54-73 | a bearer token encoding the user name and an expiry the configured minutes ahead, exactly when authentication succeeds; otherwise 401 "Incorrect username or password" |
| Users.NewUserRow | src/server/routes/users.py:78-82 | the new user holds its name, the hash and the role |
| Users.RegistrationError | src/server/routes/users.py:87-92 | a unique-key clash becomes 400 "Username '...' already taken"; any other error is re-raised |
| Users.NewUserShaped | src/server/routes/users.py:78-86 | the new user row is well formed and stored under the drawn key |
| Users.NewUserRowShaped | src/server/routes/users.py:78-82 | the built row is shaped |
| Users.OtherTablesOk | src/server/routes/users.py:83-86 | adding a user keeps the other tables consistent |
| Users.NameClash | src/server/routes/users.py:83-86 | a second user with a taken name breaks uniqueness |
| Users.NameFresh | src/server/routes/users.py:83-86 | a user with a free name keeps uniqueness |
| Users.NewUserFlush | src/server/routes/users.py:83-92 | the flush fails only on a name clash, always fails on a taken name, and succeeds on a free name with a free key |
| Users.CreateUser | src/server/routes/users.py:76-94 | adds exactly one user holding the name, the hashed password and the role "user"; a taken name gives 400 "Username '...' already taken" and rolls back; a free name with a free key succeeds |
| Users.UsersMatch | src/server/routes/users.py:106-109 | for an admin, the query reaches exactly the users holding every parameter |
| Users.ListUsers | src/server/routes/users.py:97-111 | 403 "Only admins can list users" exactly for a non-admin; otherwise each user holding every parameter, once |
| Users.UpdateValues | src/server/routes/users.py:126-141 | the values written are the role when given and the hash of the password when given, nothing else |
| Users.UserPatchOk | src/server/routes/users.py:143-144 | updating role or password never breaks a constraint |
| Users.PatchedUsersOk | src/server/routes/users.py:143-144 | the patched user table stays consistent and names stay unique |
| Users.PatchedShaped | src/server/routes/users.py:143 | patched users stay shaped |
| Users.PatchedNamesUnique | src/server/routes/users.py:143 | patching other columns keeps names unique |
| Users.OwnRowOnly | src/server/routes/users.py:143 | a plain user sees only its own user row |
| Users.UpdateUser | src/server/routes/users.py:119-145 | a password change for a user the requester cannot see gives NoResultFound, for another user the requester can see (only an admin sees other users) 403; a role change by a non-admin gives 403; otherwise the visible target gets the new role and the hashed password and the change is committed; a failure changes nothing; the update succeeds whenever any password change is of the requester's own row and any role change is made by an admin |
| Users.OthersOutOfReach | src/server/routes/users.py:129-135 | a plain user cannot see another user's row, so their password change for that user gives NoResultFound rather than the 403 |
| Users.UpdateVisible | src/server/routes/users.py:143-145 | the restricted UPDATE patches the target exactly when it is visible, and commits |
| Users.UpdateStaysOwn | src/server/routes/users.py:143 | a plain user's update never changes another user's row |
| App.UniqueId | src/server/app.py:20-21 | the operation id is the first tag, a dash and the handler's name; a route without tags raises IndexError |
| App.UniqueIdDetermines | src/server/app.py:20-21 | with dash-free tags, equal ids mean equal first tags and equal names |
| App.ReplyOf | src/server/app.py:28 | a handler's success becomes its status, an HTTPException its status, any other error an exception |
| App.CommitsOnSuccess | src/server/app.py:29-32 | with a success status below 300 and error statuses at or above it, the work is committed exactly when the handler succeeds |
| App.SessionMiddleware | src/server/app.py:24-38 | a response below 300 commits the handler's work; any other response or an exception rolls it back; the session is always closed and the reply passes through unchanged |
| App.SetupBootstrapAdmin | src/server/app.py:41-55 | adds the user "admin" with role "admin" and the hashed configured password when no user is named "admin", otherwise changes nothing; a failed flush changes nothing and raises IntegrityError |
| App.BootstrapIdempotent | src/server/app.py:41-55 | running the bootstrap again changes nothing |
| App.InsertedNamed | src/server/app.py:47-53 | an inserted user is registered under its name |
| App.BootstrapAddsAdmin | src/server/app.py:46-53 | on a database where no user is named "admin", the bootstrap leaves exactly one user named "admin", with role "admin" and the given hash |
| App.AdminAdded | src/server/app.py:46-53 | on a database where no user is named "admin" and the drawn key is free, the insert succeeds under that key and the result has exactly one user named "admin", under that key |
| App.AdminRow | src/server/app.py:47-51 | the admin row holds the role "admin" and the given hash |
| App.InsertedOnlyNamed | src/server/app.py:46-53 | a user inserted under a name nobody had is the only user of that name and holds its data |
| App.BootstrapKeeps | src/server/app.py:41-55 | the bootstrap keeps every constraint, every existing user and every other table |
| Text.Split | src/server/routes/grocery_lists.py:83 | `split` gives one piece per separator plus one, none of them holding the separator |
| Text.JoinSplit | src/server/routes/grocery_lists.py:83 | joining the pieces gives the text back |
| Text.SplitJoin | src/server/routes/grocery_lists.py:117 | splitting joined separator-free pieces gives them back |
| Text.SplitJoinStep | src/server/routes/grocery_lists.py:117 | one step of that induction |
| Text.TailPiecesFree | src/server/routes/grocery_lists.py:117 | the pieces stay separator-free after taking off a character |
| Text.SplitChar | src/server/routes/grocery_lists.py:83 | a leading non-separator extends the first piece |
| Text.SplitSep | src/server/routes/grocery_lists.py:83 | a leading separator starts an empty first piece |
| Text.JoinCons | src/server/routes/grocery_lists.py:83 | joining a piece in front of others |
| AsWritten.AttrNamed | src/server/storage/models.py:11-168 | a name denotes an attribute of a class exactly when it is the Python name of one of its columns, relationships, parents or `user_id`, and then it denotes that one |
| AsWritten.NoIngredientAttribute | src/server/storage/models.py:40-52 | Recipe has no attribute `ingredient`; `ingredients` is its ingredient list |
| AsWritten.NoThumbnailAttribute | src/server/storage/models.py:21-34 | Recipe has no attribute `thumbnail_url`; its picture is `image_url` |
| AsWritten.NoStepTextsAttribute | src/server/storage/models.py:21-52 | Recipe has no attribute `step_texts`; `steps` is its step list |
| AsWritten.NoTagRecipeAttribute | src/server/storage/models.py:55-88 | Tag has no attribute `recipe_id`; the association class has `recipe_id` and `tag_id` |
| AsWritten.NoUserAttribute | src/server/storage/models.py:11-18 | User has no attribute `user`; its key is `id` |
| AsWritten.RaisedRollsBack | src/server/app.py:28-33 | an error other than an HTTPException never commits |
| AsWritten.CreateGroceryListAsWritten | src/server/routes/grocery_lists.py:49-98 | as written: when an entry falls within the dates the route fails with an AttributeError at `recipe.ingredient` (for an existing requester) and nothing is committed; without entries it creates the list and its extra items |
| AsWritten.NewListAsWritten | src/server/routes/grocery_lists.py:62-96 | as written, after the listing: any entry makes it fail, with NoSuchAttribute for an existing requester; otherwise the list and its extra items are created |
| AsWritten.ListItemsAsWritten | src/server/routes/grocery_lists.py:65-96 | as written, on a new list: the first entry fails with NoSuchAttribute; without entries the extra items are created |
| AsWritten.RecipeItemAsWritten | src/server/routes/grocery_lists.py:67-81 | as written: building an item fails with NoSuchAttribute, or would yield more than the intended item |
| AsWritten.ThumbnailUrlFails | src/server/routes/grocery_lists.py:77 | reading `thumbnail_url` makes every recipe item fail with NoSuchAttribute |
| AsWritten.UpdateSchemaHasNoGet | src/server/routes/grocery_lists.py:114 | the update request model has `extra_items` but no `get` |
| AsWritten.UpdateGroceryListAsWritten | src/server/routes/grocery_lists.py:101-132 | as written: the old extra items are deleted, then `request_data.get` fails with NoSuchAttribute on a request model without `get`, and nothing is committed; with a `get` a visible list would be updated |
| AsWritten.CreateRecipeAsWritten | src/server/routes/recipes.py:126-149 | as written: a request giving step texts fails with InvalidKeyword before anything is added, and nothing is committed; otherwise the recipe is created with no step; valid data without step texts succeeds |
| AsWritten.NoStepsBuilt | src/server/routes/recipes.py:143-144 | a recipe created with no step texts has no step |
| AsWritten.UpdateRecipeAsWritten | src/server/routes/recipes.py:157-188 | as written: any tag id makes it fail with InvalidKeyword, with nothing changed, even for a missing recipe; without tag ids it is the intended update, and the tag associations stay as they were |
| AsWritten.UpdateUserAsWritten | src/server/routes/users.py:119-145 | as written: every password change fails with NoSuchAttribute and changes nothing; a role change alone is the intended update and succeeds for an admin |

## Left out

- The SQLAlchemy machinery itself (identity map, lazy loading, autoflush, relationship objects) is
  modelled only by its effect on the store. The database engine, `database.py` and migrations are
  not part of this model.
- Password hashing and verification (bcrypt) and JWT encoding are parameters of the operations that
  use them. The clock and `CONFIG` values are parameters as well.
- `dependencies.py` is not part of this model: the session and the requesting user are parameters.
  For the same reason `get_user_self` is not modelled; it only returns that user.
- Pydantic request validation and its 422 responses are left out: the inputs are the validated
  values. The parameter and request fields come from `schemas.py`, which is not part of this model.
  Class reflection (`inspect`, annotations) is a list of attribute descriptions.
- Pagination (`paginate`), routing, static files, `init_app`'s wiring (`include_router`, `mount`,
  `add_pagination`) and the async runtime are left out. Concurrent requests are not modelled.
- Dates are integers. Values carry no SQL type: a row is accepted whatever the type of each
  value, as long as no NOT NULL column is NULL.
- `wsgi.py`, `config.py`, `constants.py`, the setup files and the test suite are not part of this
  model.
- The ORM-level `cascade="all, delete"` on `Recipe.tags` and `Tag.recipes` is left out. The model
  deletes association rows through their foreign keys.
- `setattr` on the derived `user_id`, or on `id`, and assigning a many-to-one relationship are left
  out. Updates write columns and list relationships only.
- `create_recipe` and `update_recipe` may set `image_url` to NULL explicitly. Explicit
  `password=None` in `update_user` and explicit `extra_items=null` are left out. A `thumbnail_url`
  in a recipe request, which Recipe has no column for, is left out.
- The `WWW-Authenticate` header of the 401 response is left out.
- Users.UpdateUser: requires a role or a password. A request with neither would run `values()`
  with nothing to set, which SQLAlchemy rejects; that path is left out.
- Users.UpdateUser: returns no response body, as the route returns nothing.
- Users.CreateUser: leaves the new user flushed but not committed. The route does the same; the
  middleware commits on a 2xx response (`App.SessionMiddleware`).
- App.SessionMiddleware: the 500 response the middleware prepares first is never returned. Every
  exception is re-raised, so the model passes the exception through.
- App.SetupBootstrapAdmin: `one_or_none` cannot find two admins in a consistent store, so the model
  has no MultipleResultsFound path there.
- Recipes.ListRecipes: orders names by code point, which is PostgreSQL's order under the "C"
  collation. Under another collation (en_US.UTF-8, say) the database orders text differently,
  for instance "apple" before "Banana"; the model does not capture that.
- Recipes.CreateRecipe: stores `prep_time` and `cook_time` whatever their type. The request
  schema (`src/server/routes/recipes.py:60-61`) gives them as times of day, while the columns
  are Integers (`src/server/storage/models.py:30-31`); the database's refusal of such a value is
  not modelled.
- Recipes.CreateRecipe: cannot express an explicit `"ingredient_schemas": null` or
  `"tag_ids": null`, which the request schema allows (`src/server/routes/recipes.py:65`, :67).
  There `pop` returns None, the recipe is flushed (:136), and `enumerate(None)` (:138) or
  `for tag_id in None` (:146) raises TypeError, which the middleware rolls back. The model takes
  the lists as sequences, so this error path is not modelled.
- Db.Session.Add: draws keys from one counter shared by every table, while PostgreSQL gives each
  table's `id` its own sequence; it also advances the counter when the constructor refuses a
  keyword, which never reaches the database. Keys stay fresh, but they are not the database's
  keys.
- Recipes.UpdateRecipe: the same for the update schema (`src/server/routes/recipes.py:77-78`).
- Users.UpdateUser: cannot express an explicit `"role": null`, which the request schema allows
  (`src/server/schemas.py:31-37`): `role` is either absent or a string. In the code a non-admin
  then gets 403, and an admin gets an IntegrityError from the NOT NULL `role` column
  (`src/server/storage/models.py:17`).
- GroceryItems.RecipeItem: copies the ingredient's Float quantity
  (`src/server/storage/models.py:98`) as it is into the item's Integer `quantity` column
  (`src/server/storage/models.py:158`); the database's conversion to an integer is not modelled.
- GroceryLists.CreateRecipeItems: models the loop over the entries as intended. As written,
  `recipe.ingredient` (`src/server/routes/grocery_lists.py:66`) and `thumbnail_url` (:77) fail
  on the first entry; `AsWritten.ListItemsAsWritten` and `AsWritten.ThumbnailUrlFails` model
  that (see "## Findings").
- GroceryLists.CreateRecipeRun: the same; it models one entry's items as intended.
- GroceryLists.CreateGroceryList: the same; `AsWritten.CreateGroceryListAsWritten` is the route
  as written.
- GroceryLists.UpdateGroceryList: reads the new text as intended. As written, `.get` on the
  request model (`src/server/routes/grocery_lists.py:114`) fails after the deletes;
  `AsWritten.UpdateGroceryListAsWritten` models that.
- Recipes.CreateChildren: creates the steps as intended. As written, no step is ever created;
  `AsWritten.CreateRecipeAsWritten` models that.
- Recipes.CreateRecipe: pops `step_texts` as intended; `AsWritten.CreateRecipeAsWritten` models
  the `"steps_texts"` pop as written.
- Recipes.RecipeChanges: models the intended effect of putting the Tag rows with the given ids
  into `request_data["tags"]`, which `sm.update` extends `recipe.tags` with; the association rows
  that result are what the model builds. As written, `Tag(recipe_id=...)`
  (`src/server/routes/recipes.py:185`) fails whenever tag ids are given;
  `AsWritten.UpdateRecipeAsWritten` models that.
- Recipes.UpdateRecipe: the same.
- Users.UpdateUser: looks the target up by `id` as intended; `AsWritten.UpdateUserAsWritten`
  models `filter_by(user=id)` as written.

## Findings

| source | as written | input that shows it | evidently intended | confidence | as-written member | corrected member |
|---|---|---|---|---|---|---|
| src/server/routes/grocery_lists.py:66 | iterates `meal_plan_item.recipe.ingredient`; Recipe has no such attribute, so the route raises AttributeError and the request is rolled back | a create request whose date range holds one of the requester's meal-plan entries | iterate `recipe.ingredients` | not executed | AsWritten.CreateGroceryListAsWritten | GroceryLists.CreateGroceryList |
| src/server/routes/grocery_lists.py:77 | reads `meal_plan_item.recipe.thumbnail_url`, which Recipe does not have (nor does GroceryListItem) | any ingredient of a planned recipe | leave the thumbnail out of the item | not executed | AsWritten.ThumbnailUrlFails | GroceryItems.StoredItemFills |
| src/server/routes/grocery_lists.py:114 | calls `request_data.get(...)` on a pydantic model, which has no `get`; the old extra items are already deleted at :111-112, and the whole request is rolled back | any update request on a visible list | read `request_data.extra_items` | not executed | AsWritten.UpdateGroceryListAsWritten | GroceryLists.UpdateGroceryList |
| src/server/routes/recipes.py:133 | pops `"steps_texts"`, while the field is `step_texts`; a given `step_texts` stays in the data and `Recipe(**data)` refuses it, and without it no step is ever created (:144 would also link steps to the builtin `id`) | a create request with `step_texts: ["Boil water"]` | pop `step_texts` and link each step to `recipe.id` | not executed | AsWritten.CreateRecipeAsWritten | Recipes.CreateRecipe |
| src/server/routes/recipes.py:185 | builds `Tag(recipe_id=id, tag_id=tag_id)`; Tag has neither keyword, so the constructor raises TypeError | an update request with `tag_ids: [1]` | put the Tag rows with those ids into `request_data["tags"]`, since `sm.update` extends `recipe.tags`, a list of Tag objects (`src/server/storage/models.py:46-52`); the association rows follow from that | not executed | AsWritten.UpdateRecipeAsWritten | Recipes.UpdateRecipe |
| src/server/routes/users.py:130 | filters with `filter_by(user=id)`; User has no attribute `user`, so SQLAlchemy raises before the query runs | any update request with a `password` | `filter_by(id=id)`, still through `safe_query`, so a plain user changing another user's password gets NoResultFound, not the 403 the tests expect | not executed | AsWritten.UpdateUserAsWritten | Users.UpdateUser |
