/** The one route of src/server/routes/grocery_list_items.py: flipping the `active` flag of a
    grocery-list item the requester may see. */
module GroceryListItems {
  import opened Common
  import opened Models
  import opened ModelFacts
  import opened TableEdits
  import opened Query
  import opened Db
  import opened Storage
  import opened Routes

  /** Python truthiness of a column value (`not value` is its negation). */
  predicate Truthy(v: Value) {
    match v
    case VNull => false
    case VBool(b) => b
    case VInt(i) => i != 0
    case VReal(x) => x != 0.0
    case VStr(str) => str != ""
  }

  /** The row after `setattr(item, "active", not item.active)`. */
  function Toggled(row: Row): (r: Row)
    requires Active in row
    ensures r.Keys == row.Keys
    ensures r[Active] == VBool(!Truthy(row[Active]))
    ensures forall f | f in row && f != Active :: r[f] == row[f]
  {
    row[Active := VBool(!Truthy(row[Active]))]
  }

  /** Toggling twice gives the item back, since `active` always holds a boolean. */
  lemma ToggleTwice(row: Row)
    requires Active in row && row[Active].VBool?
    ensures Toggled(Toggled(row)) == row
  {
    assert Toggled(Toggled(row))[Active] == row[Active];
  }

  /** A toggled item still meets every constraint: `active` is never NULL, and neither the keys
      nor any reference change. */
  lemma ToggleKeepsConstraints(s: Store, id: int)
    requires Constraints(s) && id in T(s, GroceryListItem)
    ensures Active in T(s, GroceryListItem)[id]
    ensures Constraints(With(s, GroceryListItem, T(s, GroceryListItem)[id := Toggled(T(s, GroceryListItem)[id])]))
  {
    assert TableOk(s, GroceryListItem);
    ToggledItemOk(s, id);
    OneTableEdited(s, GroceryListItem, T(s, GroceryListItem)[id := Toggled(T(s, GroceryListItem)[id])]);
  }

  /** The grocery-list item table with one item toggled is shaped and its references resolve. */
  lemma ToggledItemOk(s: Store, id: int)
    requires TableOk(s, GroceryListItem) && id in T(s, GroceryListItem)
    ensures Active in T(s, GroceryListItem)[id]
    ensures TableOk(With(s, GroceryListItem, T(s, GroceryListItem)[id := Toggled(T(s, GroceryListItem)[id])]), GroceryListItem)
  {
    var row := T(s, GroceryListItem)[id];
    ToggledShaped(row);
    ToggledTableShaped(s, id);
    ToggledRefsResolve(s, id);
  }

  lemma ToggledTableShaped(s: Store, id: int)
    requires TableShaped(s, GroceryListItem) && id in T(s, GroceryListItem)
    requires Active in T(s, GroceryListItem)[id] && Shaped(GroceryListItem, Toggled(T(s, GroceryListItem)[id]))
    ensures TableShaped(With(s, GroceryListItem, T(s, GroceryListItem)[id := Toggled(T(s, GroceryListItem)[id])]), GroceryListItem)
  {
    var row := T(s, GroceryListItem)[id];
    RowPutShaped(T(s, GroceryListItem), GroceryListItem, id, Toggled(row));
  }

  lemma ToggledRefsResolve(s: Store, id: int)
    requires AllResolve(s, GroceryListItem, GroceryListId, GroceryList) && id in T(s, GroceryListItem)
    requires Active in T(s, GroceryListItem)[id]
    ensures AllResolve(With(s, GroceryListItem, T(s, GroceryListItem)[id := Toggled(T(s, GroceryListItem)[id])]), GroceryListItem, GroceryListId, GroceryList)
  {
    var t := T(s, GroceryListItem)[id := Toggled(T(s, GroceryListItem)[id])];
    var r := With(s, GroceryListItem, t);
    assert T(r, GroceryList) == T(s, GroceryList);
    forall k | k in t ensures GroceryListId in t[k] && Resolves(r, t[k][GroceryListId], GroceryList) {
      if k != id {
        assert t[k] == T(s, GroceryListItem)[k];
      }
    }
  }

  /** Toggling keeps an item's columns, and `active` stays non-NULL. */
  lemma ToggledShaped(row: Row)
    requires Shaped(GroceryListItem, row)
    ensures Active in row && Shaped(GroceryListItem, Toggled(row))
  {
  }

  /** `toggle_grocery_list_item` (status 204): the item's `active` flag is negated and nothing
      else changes; NoResultFound when the requester may not see the item. The flush cannot fail,
      so the route fails exactly when the item is out of reach. */
  method ToggleGroceryListItem(db: Session, user: Principal, id: int) returns (r: Outcome)
    requires db.Valid()
    modifies db
    ensures db.Valid()
    ensures r.Done? <==> RowVisible(old(db.store), user, GroceryListItem, id)
    ensures r.Failed? ==> r.error == NoResultFound && db.store == old(db.store) && db.committed == old(db.committed)
    ensures r.Done? ==> Active in T(old(db.store), GroceryListItem)[id]
    ensures r.Done? ==>
      T(db.store, GroceryListItem) == T(old(db.store), GroceryListItem)[id := Toggled(T(old(db.store), GroceryListItem)[id])]
    ensures r.Done? ==> forall x: Model | x != GroceryListItem :: T(db.store, x) == T(old(db.store), x)
    ensures r.Done? ==> db.committed == db.store
  {
    var found := FindById(db, user, GroceryListItem, id);
    if found.Err? {
      return Failed(found.error);
    }
    ToggleKeepsConstraints(db.store, id);
    var row := T(db.store, GroceryListItem)[id];
    r := SaveAndCommit(db, GroceryListItem, id, Toggled(row));
  }
}
