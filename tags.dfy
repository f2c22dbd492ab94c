/** The tag routes of src/server/routes/tags.py: list, create for the requester, partial update and
    delete, each restricted to the requester's own tags unless it is an admin. Each handler that
    writes commits its own transaction. */
module Tags {
  import opened Common
  import opened Models
  import opened ModelFacts
  import opened RowChecks
  import opened Query
  import opened Db
  import opened Storage
  import opened Routes

  /** The columns a tag request may carry (the schemas leave out `id` and `user_id`). */
  const RequestFields: set<Field> := {Name}

  /** The tags the requester may see that hold every parameter given. */
  function TagsListed(s: Store, user: Principal, params: map<Field, Value>): set<int> {
    set k | k in T(s, Tag) && Visible(s, user, Tag, T(s, Tag)[k]) && ParamsHold(T(s, Tag)[k], params)
  }

  lemma TagsMatch(s: Store, user: Principal, params: map<Field, Value>)
    requires params.Keys <= RequestFields
    ensures Matching(s, Tag, OwnerFilter(user) + {} + EqConds(Given(params))) == TagsListed(s, user, params)
  {
    forall k {
      ParamsMatch(s, user, Tag, {}, params, k);
    }
  }

  /** `list_tags`: the tags the requester may see, narrowed by every parameter given a value, in
      no particular order. */
  method ListTags(db: Session, user: Principal, params: map<Field, Value>) returns (ks: seq<int>)
    requires params.Keys <= RequestFields
    ensures Enumerates(ks, TagsListed(db.store, user, params))
  {
    var q := SafeQuery(Select, Tag, user);
    q := FilterBy(q, params);
    TagsMatch(db.store, user, params);
    ks := Fetch(T(db.store, Tag), Matching(db.store, Tag, q.conds), None);
  }

  /** The row `create_tag` builds: the request's values, owned by the requester. */
  function TagRow(data: Row, user: Principal): (row: Row)
    ensures row.Keys == data.Keys + {UserId}
    ensures row[UserId] == VInt(user.id)
    ensures forall f | f in data && f != UserId :: row[f] == data[f]
  {
    data[UserId := VInt(user.id)]
  }

  /** Tag names are unique across all users: once a new tag is stored, no tag that was there
      before has its name. */
  lemma NameFree(s: Store, s': Store, k: int, row: Row)
    requires UniqueOk(s')
    requires RowAdded(T(s, Tag), T(s', Tag), k, row) && Name in row
    ensures forall j | j in T(s, Tag) && Name in T(s, Tag)[j] :: T(s, Tag)[j][Name] != row[Name]
  {
    forall j | j in T(s, Tag) && Name in T(s, Tag)[j] ensures T(s, Tag)[j][Name] != row[Name] {
      assert UniqueOn(T(s', Tag), Name);
      assert T(s', Tag)[j] == T(s, Tag)[j] && T(s', Tag)[k][Name] == row[Name];
    }
  }

  /** `create_tag`: a tag with the request's values, owned by the requester, committed; an
      IntegrityError when the name is taken by any tag, the requester's or another user's. */
  method CreateTag(db: Session, user: Principal, data: Row) returns (r: Result<int>)
    requires db.Valid()
    requires data.Keys <= RequestFields && Name in data
    modifies db
    ensures db.Valid()
    ensures r.Ok? ==> RowAdded(T(old(db.store), Tag), T(db.store, Tag), r.value, data)
    ensures r.Ok? ==> T(db.store, Tag)[r.value][UserId] == VInt(user.id)
    ensures r.Ok? ==> forall x: Model | x != Tag :: T(db.store, x) == T(old(db.store), x)
    ensures r.Ok? ==> db.committed == db.store
    ensures r.Err? ==> r.error.IntegrityError? && db.store == old(db.committed) && db.committed == old(db.committed)
    ensures (exists j | j in T(old(db.store), Tag) :: T(old(db.store), Tag)[j][Name] == data[Name]) ==> r.Err?
    ensures r.Ok? <==> Insert(old(db.store), Tag, TagRow(data, user), old(db.nextId)).Ok?
    ensures && data[Name] != VNull && user.id in T(old(db.store), User) && old(db.nextId) !in T(old(db.store), Tag)
            && (forall j | j in T(old(db.store), Tag) :: T(old(db.store), Tag)[j][Name] != data[Name])
            ==> r.Ok?
  {
    ghost var s0 := db.store;
    TablesShaped(s0, Tag);
    TagInsertOk(s0, data, user, db.nextId);
    r := AddAndCommit(db, Tag, TagRow(data, user));
    if r.Ok? {
      TagAdded(T(s0, Tag), T(db.store, Tag), r.value, data, user);
      NameFree(s0, db.store, r.value, TagRow(data, user));
    }
  }

  /** A tag whose name is given, not NULL and used by no tag, owned by a user that exists, goes in
      under a free key. */
  lemma TagInsertOk(s: Store, data: Row, user: Principal, next: int)
    requires Constraints(s) && data.Keys <= RequestFields && Name in data
    ensures && data[Name] != VNull && user.id in T(s, User) && next !in T(s, Tag)
            && (forall j | j in T(s, Tag) :: T(s, Tag)[j][Name] != data[Name])
            ==> Insert(s, Tag, TagRow(data, user), next).Ok?
  {
    TablesShaped(s, Tag);
    if && data[Name] != VNull && user.id in T(s, User) && next !in T(s, Tag)
       && (forall j | j in T(s, Tag) :: T(s, Tag)[j][Name] != data[Name])
    {
      TagChecks(s, data, user);
      InsertOk(s, Tag, TagRow(data, user), next);
    }
  }

  lemma TagChecks(s: Store, data: Row, user: Principal)
    requires data.Keys <= RequestFields && Name in data && data[Name] != VNull && user.id in T(s, User)
    requires forall j | j in T(s, Tag) :: Name in T(s, Tag)[j] && T(s, Tag)[j][Name] != data[Name]
    ensures var row := TagRow(data, user);
      && row.Keys <= Columns(Tag) && Id !in row && Fills(Tag, row)
      && RowRefsOk(s, Tag, row) && RowUnique(s, Tag, row)
  {
    var row := TagRow(data, user);
    forall j | j in T(s, Tag) ensures Lookup(T(s, Tag)[j], Name) != Lookup(row, Name) {
      assert Lookup(row, Name) == Some(data[Name]);
    }
  }

  /** Renaming a tag to the name another tag has breaks the uniqueness of tag names. */
  lemma RenameClash(s: Store, id: int, data: Row, j: int)
    requires id in T(s, Tag) && j in T(s, Tag) && j != id
    requires Name in data && Name in T(s, Tag)[j] && T(s, Tag)[j][Name] == data[Name]
    ensures !Constraints(With(s, Tag, T(s, Tag)[id := T(s, Tag)[id] + data]))
  {
    var c := With(s, Tag, T(s, Tag)[id := T(s, Tag)[id] + data]);
    assert T(c, Tag)[j][Name] == T(c, Tag)[id][Name];
    assert !UniqueOn(T(c, Tag), Name);
  }

  /** The stored tag holds the request's values and the requester as owner. */
  lemma TagAdded(t0: Table, t: Table, k: int, data: Row, user: Principal)
    requires RowAdded(t0, t, k, TagRow(data, user)) && data.Keys <= RequestFields
    ensures RowAdded(t0, t, k, data) && t[k][UserId] == VInt(user.id)
  {
  }

  /** `update_tag`: the request's values are set on the tag and the rest of it is kept. */
  method UpdateTag(db: Session, user: Principal, id: int, data: Row) returns (r: Result<int>)
    requires db.Valid()
    requires data.Keys <= RequestFields
    modifies db
    ensures db.Valid()
    ensures r == Err(NoResultFound) <==> !RowVisible(old(db.store), user, Tag, id)
    ensures r == Err(NoResultFound) ==> db.store == old(db.store) && db.committed == old(db.committed)
    ensures r.Ok? ==> r.value == id && id in T(old(db.store), Tag)
    ensures r.Ok? ==> T(db.store, Tag) == T(old(db.store), Tag)[id := T(old(db.store), Tag)[id] + data]
    ensures r.Ok? ==> forall x: Model | x != Tag :: T(db.store, x) == T(old(db.store), x)
    ensures r.Ok? ==> db.committed == db.store
    ensures r.Err? && r != Err(NoResultFound) ==> r.error.IntegrityError? && db.store == old(db.committed) && db.committed == old(db.committed)
    ensures r.Ok? <==> && RowVisible(old(db.store), user, Tag, id)
                       && Constraints(With(old(db.store), Tag, T(old(db.store), Tag)[id := T(old(db.store), Tag)[id] + data]))
    ensures && RowVisible(old(db.store), user, Tag, id) && Name in data
            && (exists j | j in T(old(db.store), Tag) && j != id :: T(old(db.store), Tag)[j][Name] == data[Name])
            ==> r.Err?
  {
    var found := FindById(db, user, Tag, id);
    if found.Err? {
      return Err(found.error);
    }
    TablesShaped(db.store, Tag);
    if Name in data && exists j | j in T(db.store, Tag) && j != id :: T(db.store, Tag)[j][Name] == data[Name] {
      var j :| j in T(db.store, Tag) && j != id && T(db.store, Tag)[j][Name] == data[Name];
      RenameClash(db.store, id, data, j);
    }
    var row := SetAttrs(T(db.store, Tag)[id], data);
    var saved := SaveAndCommit(db, Tag, id, row);
    if saved.Failed? {
      return Err(saved.error);
    }
    r := Ok(id);
  }

  /** `delete_tag`: the tag goes, with its associations to recipes; the recipes stay. */
  method DeleteTag(db: Session, user: Principal, id: int) returns (r: Result<int>)
    requires db.Valid()
    modifies db
    ensures db.Valid()
    ensures r.Ok? <==> RowVisible(old(db.store), user, Tag, id)
    ensures r.Err? ==> r.error == NoResultFound && db.store == old(db.store) && db.committed == old(db.committed)
    ensures r.Ok? ==> r.value == id && db.store == DeleteRow(old(db.store), Tag, id)
    ensures r.Ok? ==> forall j :: j in T(db.store, Tag) <==> j in T(old(db.store), Tag) && j != id
    ensures r.Ok? ==> forall j :: j in T(db.store, RecipeTagAssoc) <==>
      j in T(old(db.store), RecipeTagAssoc) && !RefersTo(T(old(db.store), RecipeTagAssoc)[j], TagId, {id})
    ensures r.Ok? ==> T(db.store, Recipe) == T(old(db.store), Recipe)
    ensures r.Ok? ==> db.committed == db.store
  {
    var found := FindById(db, user, Tag, id);
    if found.Err? {
      return Err(found.error);
    }
    DeleteTagScope(db.store, id);
    db.Remove(Tag, id);
    db.Commit();
    r := Ok(id);
  }
}
