/** `StorageManager` of src/server/storage/storage_manager.py: list, create, get, update and
    delete of any mapped class, scoped to the rows the requesting user owns. */
module Storage {
  import opened Common
  import opened Ordering
  import opened Models
  import opened ModelFacts
  import opened Query
  import opened Db
  import opened RowChecks

  /** A key of the `filters` dict `list` takes: an attribute name, or one of the two date bounds
      it turns into range conditions on `date`. */
  datatype FilterKey = Attr(field: Field) | StartDate | EndDate

  type Filters = map<FilterKey, Value>

  /** One value of the `data` dict `update` takes: a value for a column, or the new members of a
      list-valued relationship. */
  datatype Assign = Scalar(value: Value) | Members(rows: seq<Row>)

  /** The 400 error of get, update and delete: "<Model> doesn't exist". */
  function Missing(m: Model): Error {
    HttpError(400, ModelName(m) + " doesn't exist")
  }

  // ---------------------------------------------------------------- list

  /** The plain keys of the filters, which `filter_by(**filters)` turns into equalities. */
  function AttrFilters(filters: Filters): (r: map<Field, Value>)
    ensures forall f :: f in r <==> Attr(f) in filters
    ensures forall f | f in r :: r[f] == filters[Attr(f)]
  {
    map k | k in filters && k.Attr? :: k.field := filters[k]
  }

  /** `start_date` and `end_date` become `date >= start_date` and `date <= end_date`. */
  function BoundConds(filters: Filters): set<Cond> {
    (if StartDate in filters then {AtLeast(Date, filters[StartDate])} else {})
      + (if EndDate in filters then {AtMost(Date, filters[EndDate])} else {})
  }

  /** Every condition `list` puts on its query. */
  function ListConds(user: Principal, filters: Filters): set<Cond> {
    OwnerFilter(user) + BoundConds(filters) + EqConds(AttrFilters(filters))
  }

  /** What a listed row meets, stated without the query: the requester may see it, its `date`
      lies within the bounds given (both ends included), and every other filter holds with
      equality. */
  predicate Listed(s: Store, user: Principal, m: Model, row: Row, filters: Filters) {
    && Visible(s, user, m, row)
    && (StartDate in filters ==> var d := ReadAttr(s, m, row, Date); d.Some? && SqlLe(filters[StartDate], d.value))
    && (EndDate in filters ==> var d := ReadAttr(s, m, row, Date); d.Some? && SqlLe(d.value, filters[EndDate]))
    && (forall f | Attr(f) in filters :: ReadAttr(s, m, row, f) == Some(filters[Attr(f)]))
  }

  /** The query `list` builds reaches exactly the listed rows. */
  lemma ListMatches(s: Store, user: Principal, m: Model, filters: Filters, k: int)
    ensures k in Matching(s, m, ListConds(user, filters)) <==> k in T(s, m) && Listed(s, user, m, T(s, m)[k], filters)
  {
    var extra := BoundConds(filters) + EqConds(AttrFilters(filters));
    assert ListConds(user, filters) == Where(SafeQuery(Select, m, user), extra).conds;
    SafeQueryMatchesVisible(s, Select, m, user, extra, k);
    if k in T(s, m) {
      FiltersHold(s, m, T(s, m)[k], filters);
    }
  }

  /** A row meets the conditions the filters become exactly when it meets the filters. */
  lemma FiltersHold(s: Store, m: Model, row: Row, filters: Filters)
    ensures Satisfies(s, m, row, BoundConds(filters) + EqConds(AttrFilters(filters))) <==>
      && (StartDate in filters ==> var d := ReadAttr(s, m, row, Date); d.Some? && SqlLe(filters[StartDate], d.value))
      && (EndDate in filters ==> var d := ReadAttr(s, m, row, Date); d.Some? && SqlLe(d.value, filters[EndDate]))
      && (forall f | Attr(f) in filters :: ReadAttr(s, m, row, f) == Some(filters[Attr(f)]))
  {
    var extra := BoundConds(filters) + EqConds(AttrFilters(filters));
    if Satisfies(s, m, row, extra) {
      forall f | Attr(f) in filters ensures ReadAttr(s, m, row, f) == Some(filters[Attr(f)]) {
        assert Holds(s, m, row, Eq(f, filters[Attr(f)]));
      }
      if StartDate in filters {
        assert Holds(s, m, row, AtLeast(Date, filters[StartDate]));
      }
      if EndDate in filters {
        assert Holds(s, m, row, AtMost(Date, filters[EndDate]));
      }
    } else {
      var c :| c in extra && !Holds(s, m, row, c);
      if c in EqConds(AttrFilters(filters)) {
        assert Attr(c.field) in filters;
      }
    }
  }

  /** The first half of the `if filters:` block of `list`: each date bound present becomes a
      range condition on `date` and is popped out of the dict. */
  method PopBounds(filters: Filters) returns (bounds: set<Cond>, remaining: Filters)
    ensures bounds == BoundConds(filters)
    ensures remaining == filters - {StartDate, EndDate}
  {
    bounds := {};
    remaining := filters;
    if StartDate in remaining {
      bounds := bounds + {AtLeast(Date, remaining[StartDate])};
      remaining := remaining - {StartDate};
    }
    if EndDate in remaining {
      bounds := bounds + {AtMost(Date, remaining[EndDate])};
      remaining := remaining - {EndDate};
    }
    assert forall x :: x in remaining <==> x in filters && x != StartDate && x != EndDate;
  }

  /** Popping the bounds leaves the plain filters alone. */
  lemma PoppedKeepsAttrs(filters: Filters)
    ensures AttrFilters(filters - {StartDate, EndDate}) == AttrFilters(filters)
  {
  }

  // ---------------------------------------------------------------- create

  /** The data `create` passes to the constructor: the caller's, with `user_id` set to the
      requester's id when the class has that column. */
  function Stamp(m: Model, data: Row, user: Principal): (r: Row)
    ensures HasUserIdColumn(m) ==> UserId in r && r[UserId] == VInt(user.id)
    ensures forall f | f in data && (f != UserId || !HasUserIdColumn(m)) :: f in r && r[f] == data[f]
    ensures r.Keys == if HasUserIdColumn(m) then data.Keys + {UserId} else data.Keys
  {
    if HasUserIdColumn(m) then data[UserId := VInt(user.id)] else data
  }

  /** A row stored with `Stamp`'s data is owned by, and so visible to, the requester. */
  lemma StampedIsOwn(s: Store, m: Model, row: Row, data: Row, user: Principal)
    requires HasUserIdColumn(m)
    requires Extends(row, Stamp(m, data, user))
    ensures Owner(s, m, row) == Some(VInt(user.id))
    ensures Visible(s, user, m, row)
  {
    assert UserId in Stamp(m, data, user);
  }

  // ---------------------------------------------------------------- get

  /** The conditions of get, update and delete: the caller's equalities and the owner filter. */
  function Scope(user: Principal, filters: map<Field, Value>): set<Cond> {
    EqConds(filters) + OwnerFilter(user)
  }

  /** A row within the scope of get, update or delete is one the requester may see, and it
      has the value each filter asks for; and every such row is within the scope. */
  lemma ScopedRow(s: Store, user: Principal, m: Model, filters: map<Field, Value>, k: int)
    ensures k in Matching(s, m, Scope(user, filters)) <==>
      && k in T(s, m)
      && Visible(s, user, m, T(s, m)[k])
      && forall f | f in filters :: ReadAttr(s, m, T(s, m)[k], f) == Some(filters[f])
  {
    SafeQueryMatchesVisible(s, Select, m, user, EqConds(filters), k);
    assert Where(SafeQuery(Select, m, user), EqConds(filters)).conds == Scope(user, filters);
    if k in T(s, m) {
      var row := T(s, m)[k];
      if Satisfies(s, m, row, EqConds(filters)) {
        forall f | f in filters ensures ReadAttr(s, m, row, f) == Some(filters[f]) {
          assert Holds(s, m, row, Eq(f, filters[f]));
        }
      }
    }
  }

  /** Row `id` of `m` exists and the requester may see it. */
  predicate RowVisible(s: Store, user: Principal, m: Model, id: int) {
    id in T(s, m) && Visible(s, user, m, T(s, m)[id])
  }

  /** The filter `{"id": id}` the routes pass to get, update and delete. */
  function ById(id: int): map<Field, Value> {
    map[Id := VInt(id)]
  }

  /** Filtering by id reaches row `id` and nothing else, exactly when the requester may see it;
      so `get`, `update` and `delete` by id never find several rows. */
  lemma IdScope(s: Store, user: Principal, m: Model, id: int)
    requires TableShaped(s, m) && Keyed(m)
    ensures Known(m, Scope(user, ById(id)))
    ensures Matching(s, m, Scope(user, ById(id))) == if RowVisible(s, user, m, id) then {id} else {}
  {
    forall k ensures k in Matching(s, m, Scope(user, ById(id))) <==> k == id && id in T(s, m) && Visible(s, user, m, T(s, m)[id]) {
      ScopedRow(s, user, m, ById(id), k);
      if k in T(s, m) {
        assert ReadAttr(s, m, T(s, m)[k], Id) == Lookup(T(s, m)[k], Id);
      }
    }
  }

  // ---------------------------------------------------------------- update

  /** Why `data[f] = a` cannot be applied to a row of `m`: `getattr` fails on a name the class
      does not have (reported as NoSuchAttribute), and a list given for a column or a single value
      given for a list does not fit (WrongType). */
  function AssignError(m: Model, f: Field, a: Assign): Option<Error> {
    if f !in Columns(m) && f !in ListRelations(m) then Some(NoSuchAttribute)
    else if (a.Scalar? && f !in Columns(m)) || (a.Members? && f !in ListRelations(m)) then Some(WrongType)
    else None
  }

  predicate Fits(m: Model, data: map<Field, Assign>) {
    forall f | f in data :: AssignError(m, f, data[f]).None?
  }

  /** The column values of `data`, which `setattr` writes. */
  function Scalars(data: map<Field, Assign>): (r: Row)
    ensures forall f :: f in r <==> f in data && data[f].Scalar?
    ensures forall f | f in r :: r[f] == data[f].value
  {
    map f | f in data && data[f].Scalar? :: data[f].value
  }

  /** The list values of `data`, which replace the relationship's members. */
  function Lists(data: map<Field, Assign>): (r: map<Field, seq<Row>>)
    ensures forall f :: f in r <==> f in data && data[f].Members?
    ensures forall f | f in r :: r[f] == data[f].rows
  {
    map f | f in data && data[f].Members? :: data[f].rows
  }

  /** The `for key, val in data.items()` loop of `update`, before the flush: each value is sorted
      into a column write or a list replacement, and the first one that does not fit stops it. */
  method Assignments(m: Model, data: map<Field, Assign>) returns (r: Result<(Row, map<Field, seq<Row>>)>)
    ensures r.Ok? <==> Fits(m, data)
    ensures r.Ok? ==> r.value.0 == Scalars(data) && r.value.1 == Lists(data)
    ensures r.Ok? ==> r.value.0.Keys <= Columns(m) && r.value.1.Keys <= ListRelations(m)
    ensures r.Err? ==> exists f | f in data :: AssignError(m, f, data[f]) == Some(r.error)
    ensures r.Err? ==> r.error == NoSuchAttribute || r.error == WrongType
  {
    var scalars: Row := map[];
    var lists: map<Field, seq<Row>> := map[];
    var todo := data.Keys;
    while todo != {}
      invariant todo <= data.Keys
      invariant forall f | f in data && f !in todo :: AssignError(m, f, data[f]).None?
      invariant forall f :: f in scalars <==> f in data && f !in todo && data[f].Scalar?
      invariant forall f | f in scalars :: scalars[f] == data[f].value
      invariant forall f :: f in lists <==> f in data && f !in todo && data[f].Members?
      invariant forall f | f in lists :: lists[f] == data[f].rows
      decreases |todo|
    {
      var f :| f in todo;
      var e := AssignError(m, f, data[f]);
      if e.Some? {
        assert f in data && AssignError(m, f, data[f]) == Some(e.value);
        return Err(e.value);
      }
      if data[f].Scalar? {
        scalars := scalars[f := data[f].value];
      } else {
        lists := lists[f := data[f].rows];
      }
      todo := todo - {f};
    }
    SortedValues(m, data, scalars, lists);
    r := Ok((scalars, lists));
  }

  /** Once every value is sorted, the column writes and the list replacements are `Scalars` and
      `Lists` of the request. */
  lemma SortedValues(m: Model, data: map<Field, Assign>, scalars: Row, lists: map<Field, seq<Row>>)
    requires forall f | f in data :: AssignError(m, f, data[f]).None?
    requires forall f :: f in scalars <==> f in data && data[f].Scalar?
    requires forall f | f in scalars :: scalars[f] == data[f].value
    requires forall f :: f in lists <==> f in data && data[f].Members?
    requires forall f | f in lists :: lists[f] == data[f].rows
    ensures Fits(m, data) && scalars == Scalars(data) && lists == Lists(data)
    ensures scalars.Keys <= Columns(m) && lists.Keys <= ListRelations(m)
  {
  }

  /** What a successful update leaves: row `k` of `m` is `row`, every other row of `m` is as
      before, each replaced list holds exactly the new members, and no other class changed. */
  ghost predicate Updated(s0: Store, s: Store, m: Model, k: int, row: Row, lists: map<Field, seq<Row>>)
    requires lists.Keys <= ListRelations(m)
  {
    && T(s, m) == T(s0, m)[k := row]
    && (forall rel | rel in lists :: exists ks :: Relinked(s0, s, ChildOf(m, rel).0, ChildOf(m, rel).1, k, lists[rel], ks))
    && (forall x: Model | x != m && x !in ChildModels(m, lists.Keys) :: T(s, x) == T(s0, x))
  }

  /** An update that replaces no list changes the one row and nothing else. */
  lemma UpdatedScalars(s0: Store, s: Store, m: Model, k: int)
    ensures forall row | Updated(s0, s, m, k, row, map[]) ::
      T(s, m) == T(s0, m)[k := row] && forall x: Model | x != m :: T(s, x) == T(s0, x)
  {
    assert ChildModels(m, {}) == {};
  }

  /** The column flush followed by the list replacements gives `Updated`. */
  lemma SavedThenRelinked(s0: Store, s1: Store, s: Store, m: Model, k: int, row: Row, lists: map<Field, seq<Row>>)
    requires lists.Keys <= ListRelations(m)
    requires T(s1, m) == T(s0, m)[k := row]
    requires forall x: Model | x != m :: T(s1, x) == T(s0, x)
    requires Processed(s1, s, m, k, lists, lists.Keys)
    ensures Updated(s0, s, m, k, row, lists)
  {
    assert m !in ChildModels(m, lists.Keys) by {
      forall rel | rel in lists ensures ChildOf(m, rel).0 != m {
        ChildOfDistinct(m, rel, rel);
      }
    }
    forall rel | rel in lists
      ensures exists ks :: Relinked(s0, s, ChildOf(m, rel).0, ChildOf(m, rel).1, k, lists[rel], ks)
    {
      ChildOfDistinct(m, rel, rel);
      var ks :| Relinked(s1, s, ChildOf(m, rel).0, ChildOf(m, rel).1, k, lists[rel], ks);
      assert T(s1, ChildOf(m, rel).0) == T(s0, ChildOf(m, rel).0);
      assert Relinked(s0, s, ChildOf(m, rel).0, ChildOf(m, rel).1, k, lists[rel], ks);
    }
  }

  /** Errors raised before anything is flushed. */
  predicate BeforeFlush(e: Error) {
    e.HttpError? || e == NoSuchAttribute || e == WrongType || e == MultipleResultsFound
  }

  /** The accessor every StorageManager route works through, bound to one session and one
      requesting user. */
  class StorageManager {
    const db: Session
    const user: Principal

    constructor (db: Session, user: Principal)
      ensures this.db == db && this.user == user
    {
      this.db := db;
      this.user := user;
    }

    /** `list(model_cls, filters, order_by)`: the rows the requester may see that meet the
        filters, ordered by `order_by` when given. The two date bounds are popped out of the
        caller's dict, which comes back as `remaining`. */
    method List(m: Model, filters: Filters, orderBy: Option<Field>) returns (r: Result<seq<int>>, remaining: Filters)
      ensures r.Ok? ==> remaining == filters - {StartDate, EndDate}
      ensures r.Err? <==> !Known(m, ListConds(user, filters))
      ensures r.Err? ==> r.error == NoSuchAttribute
      ensures r.Ok? ==> Enumerates(r.value, Matching(db.store, m, ListConds(user, filters)))
      ensures r.Ok? && orderBy.Some? ==> SortedBy(T(db.store, m), r.value, orderBy.value)
    {
      var conds := OwnerFilter(user);
      remaining := filters;
      if remaining != map[] {
        var bounds;
        bounds, remaining := PopBounds(remaining);
        PoppedKeepsAttrs(filters);
        conds := conds + bounds + EqConds(AttrFilters(remaining));
      } else {
        assert AttrFilters(filters) == map[];
      }
      assert conds == ListConds(user, filters);
      if !Known(m, conds) {
        return Err(NoSuchAttribute), remaining;
      }
      var ks := Fetch(T(db.store, m), Matching(db.store, m, conds), orderBy);
      r := Ok(ks);
    }

    /** `create(model_cls, data)`: the row is added and flushed with the requester as owner when
        the class has a `user_id` column; the caller's dict is not changed. */
    method Create(m: Model, data: Row) returns (r: Result<int>)
      requires db.Valid()
      modifies db
      ensures db.Valid()
      ensures var ins := Insert(old(db.store), m, Stamp(m, data, user), old(db.nextId));
        && (ins.Ok? ==> db.store == ins.value.0 && r == Ok(ins.value.1))
        && (ins.Err? ==> r == Err(ins.error))
        && (ins.Err? && ins.error.IntegrityError? ==> db.store == old(db.committed))
        && (ins.Err? && !ins.error.IntegrityError? ==> db.store == old(db.store))
      ensures r.Ok? ==> r.value in T(db.store, m) && Extends(T(db.store, m)[r.value], Stamp(m, data, user))
      ensures r.Ok? && HasUserIdColumn(m) ==> Owner(db.store, m, T(db.store, m)[r.value]) == Some(VInt(user.id))
      ensures r.Ok? && Id !in data && Ahead(old(db.store), old(db.nextId)) ==> Ahead(db.store, db.nextId)
      ensures db.committed == old(db.committed) && db.open == old(db.open)
    {
      var row := Stamp(m, data, user);
      r := db.Add(m, row);
      if r.Ok? && HasUserIdColumn(m) {
        StampedIsOwn(db.store, m, T(db.store, m)[r.value], data, user);
      }
    }

    /** `get(model_cls, filters)`: the one row the requester may see that meets the filters;
        400 "<Model> doesn't exist" when there is none. */
    method Get(m: Model, filters: map<Field, Value>) returns (r: Result<int>)
      ensures r == Err(Missing(m)) <==> Known(m, Scope(user, filters)) && Matching(db.store, m, Scope(user, filters)) == {}
      ensures r.Ok? ==> Matching(db.store, m, Scope(user, filters)) == {r.value}
      ensures r.Ok? ==> r.value in T(db.store, m) && Visible(db.store, user, m, T(db.store, m)[r.value])
      ensures r.Ok? ==> forall f | f in filters :: ReadAttr(db.store, m, T(db.store, m)[r.value], f) == Some(filters[f])
      ensures r == Err(MultipleResultsFound) <==> Known(m, Scope(user, filters)) && |Matching(db.store, m, Scope(user, filters))| > 1
      ensures r == Err(NoSuchAttribute) <==> !Known(m, Scope(user, filters))
      ensures r.Err? ==> r == Err(Missing(m)) || r == Err(NoSuchAttribute) || r == Err(MultipleResultsFound)
    {
      var conds := EqConds(filters);
      if user.role == "user" {
        conds := conds + {Eq(UserId, VInt(user.id))};
      }
      assert conds == Scope(user, filters);
      if !Known(m, conds) {
        return Err(NoSuchAttribute);
      }
      var item := OneOrNone(db.store, m, conds);
      match item
      case Err(e) => r := Err(e);
      case Ok(None) => r := Err(Missing(m));
      case Ok(Some(k)) =>
        r := Ok(k);
        ScopedRow(db.store, user, m, filters, k);
    }

    /** `update(model_cls, filters, data)`: the row `get` finds takes the column values of
        `data`, and each list of `data` replaces that relationship's members (clear, then
        extend); nothing else changes. A value that does not fit fails before the flush and
        changes nothing; a failed flush rolls the transaction back. */
    method Update(m: Model, filters: map<Field, Value>, data: map<Field, Assign>) returns (r: Result<int>)
      requires db.Valid()
      modifies db
      ensures db.Valid()
      ensures r == Err(Missing(m)) <==> Known(m, Scope(user, filters)) && Matching(old(db.store), m, Scope(user, filters)) == {}
      ensures r.Ok? ==> Matching(old(db.store), m, Scope(user, filters)) == {r.value}
      ensures r.Ok? ==> Fits(m, data) && Lists(data).Keys <= ListRelations(m)
      ensures r.Ok? ==> r.value in T(old(db.store), m)
      ensures r.Ok? ==> Updated(old(db.store), db.store, m, r.value, T(old(db.store), m)[r.value] + Scalars(data), Lists(data))
      ensures r.Err? && BeforeFlush(r.error) ==> db.store == old(db.store)
      ensures r.Err? ==> db.store == old(db.store) || db.store == old(db.committed)
      ensures db.committed == old(db.committed) && db.open == old(db.open)
      ensures Lists(data) == map[] ==> db.nextId == old(db.nextId)
      ensures Lists(data) == map[] && Fits(m, data) && Known(m, Scope(user, filters)) ==>
        forall k | Matching(old(db.store), m, Scope(user, filters)) == {k} && k in T(old(db.store), m) ::
          r.Ok? <==> Constraints(With(old(db.store), m, T(old(db.store), m)[k := T(old(db.store), m)[k] + Scalars(data)]))
      ensures Lists(data) == map[] && r.Err? && !BeforeFlush(r.error) ==> r.error.IntegrityError? && db.store == old(db.committed)
      ensures Fits(m, data) && Known(m, Scope(user, filters)) && Ahead(old(db.store), old(db.nextId)) ==>
        forall k | Matching(old(db.store), m, Scope(user, filters)) == {k} && k in T(old(db.store), m) ::
          && Constraints(With(old(db.store), m, T(old(db.store), m)[k := T(old(db.store), m)[k] + Scalars(data)]))
          && ListsAccepted(old(db.store), m, k, Lists(data))
          ==> r.Ok?
    {
      var g := Get(m, filters);
      if g.Err? {
        return Err(g.error);
      }
      r := SetValues(m, g.value, data);
    }

    /** The rest of `update` once the row `k` is found: each value of `data` is set on it (a list
        replaces that relationship's members), then the row is flushed. */
    method SetValues(m: Model, k: int, data: map<Field, Assign>) returns (r: Result<int>)
      requires db.Valid() && k in T(db.store, m)
      modifies db
      ensures db.Valid()
      ensures r.Ok? ==> r.value == k && Fits(m, data) && Lists(data).Keys <= ListRelations(m)
      ensures r.Ok? ==> Updated(old(db.store), db.store, m, k, T(old(db.store), m)[k] + Scalars(data), Lists(data))
      ensures r.Err? ==> !r.error.HttpError?
      ensures r.Err? && BeforeFlush(r.error) ==> db.store == old(db.store)
      ensures r.Err? ==> db.store == old(db.store) || db.store == old(db.committed)
      ensures db.committed == old(db.committed) && db.open == old(db.open)
      ensures Lists(data) == map[] ==> db.nextId == old(db.nextId)
      ensures Lists(data) == map[] && Fits(m, data)
              ==> (r.Ok? <==> Constraints(With(old(db.store), m, T(old(db.store), m)[k := T(old(db.store), m)[k] + Scalars(data)])))
      ensures Lists(data) == map[] && r.Err? && !BeforeFlush(r.error) ==> r.error.IntegrityError? && db.store == old(db.committed)
      ensures && Fits(m, data) && Constraints(With(old(db.store), m, T(old(db.store), m)[k := T(old(db.store), m)[k] + Scalars(data)]))
              && ListsAccepted(old(db.store), m, k, Lists(data)) && Ahead(old(db.store), old(db.nextId))
              ==> r.Ok?
    {
      var a := Assignments(m, data);
      if a.Err? {
        return Err(a.error);
      }
      r := FlushAssigned(m, k, a.value.0, a.value.1);
    }

    /** The flush once every value is set: `scalars` on the row, `lists` as its members. */
    method FlushAssigned(m: Model, k: int, scalars: Row, lists: map<Field, seq<Row>>) returns (r: Result<int>)
      requires db.Valid() && k in T(db.store, m) && lists.Keys <= ListRelations(m)
      modifies db
      ensures db.Valid()
      ensures r.Ok? ==> r.value == k
      ensures r.Ok? ==> Updated(old(db.store), db.store, m, k, T(old(db.store), m)[k] + scalars, lists)
      ensures r.Err? ==> !BeforeFlush(r.error) && !r.error.HttpError? && db.store == old(db.committed)
      ensures db.committed == old(db.committed) && db.open == old(db.open)
      ensures lists == map[] ==> db.nextId == old(db.nextId)
      ensures lists == map[] ==> (r.Ok? <==> Constraints(With(old(db.store), m, T(old(db.store), m)[k := T(old(db.store), m)[k] + scalars])))
      ensures lists == map[] && r.Err? ==> r.error.IntegrityError?
      ensures && Constraints(With(old(db.store), m, T(old(db.store), m)[k := T(old(db.store), m)[k] + scalars]))
              && ListsAccepted(old(db.store), m, k, lists) && Ahead(old(db.store), old(db.nextId))
              ==> r.Ok?
    {
      var flushed := Flush(m, k, T(db.store, m)[k] + scalars, lists);
      if flushed.Done? {
        r := Ok(k);
      } else {
        r := Err(flushed.error);
      }
    }

    /** `db.add(item); db.flush()` after the values are set: the row takes its new column values
        and each listed relationship its new members, or the transaction is rolled back. */
    method Flush(m: Model, k: int, row: Row, lists: map<Field, seq<Row>>) returns (r: Outcome)
      requires db.Valid() && k in T(db.store, m) && lists.Keys <= ListRelations(m)
      modifies db
      ensures db.Valid()
      ensures r.Done? ==> Updated(old(db.store), db.store, m, k, row, lists)
      ensures r.Failed? ==> db.store == old(db.committed) && (r.error == InvalidKeyword || r.error.IntegrityError?)
      ensures db.committed == old(db.committed) && db.open == old(db.open)
      ensures lists == map[] ==> db.nextId == old(db.nextId)
      ensures lists == map[] ==> (r.Done? <==> Constraints(With(old(db.store), m, T(old(db.store), m)[k := row])))
      ensures lists == map[] && r.Failed? ==> r.error.IntegrityError?
      ensures && Constraints(With(old(db.store), m, T(old(db.store), m)[k := row]))
              && ListsAccepted(old(db.store), m, k, lists) && Ahead(old(db.store), old(db.nextId))
              ==> r.Done?
    {
      ghost var s0 := db.store;
      r := db.Save(m, k, row);
      if r.Failed? {
        return;
      }
      ghost var s1 := db.store;
      SavedStaysAccepted(s0, s1, m, k, row, lists, db.nextId);
      r := db.ReplaceMembers(m, k, lists);
      if r.Done? {
        SavedThenRelinked(s0, s1, db.store, m, k, row, lists);
      }
    }

    /** `delete(model_cls, filters)`: the row `get` finds is deleted with everything that
        cascades from it, and returned. */
    method Delete(m: Model, filters: map<Field, Value>) returns (r: Result<int>)
      requires db.Valid()
      modifies db
      ensures db.Valid()
      ensures r == Err(Missing(m)) <==> Known(m, Scope(user, filters)) && Matching(old(db.store), m, Scope(user, filters)) == {}
      ensures r.Ok? ==> Matching(old(db.store), m, Scope(user, filters)) == {r.value}
      ensures r.Ok? ==> db.store == DeleteRow(old(db.store), m, r.value) && r.value !in T(db.store, m)
      ensures r == Err(MultipleResultsFound) <==> Known(m, Scope(user, filters)) && |Matching(old(db.store), m, Scope(user, filters))| > 1
      ensures r == Err(NoSuchAttribute) <==> !Known(m, Scope(user, filters))
      ensures r.Err? ==> r == Err(Missing(m)) || r == Err(NoSuchAttribute) || r == Err(MultipleResultsFound)
      ensures r.Err? ==> db.store == old(db.store)
      ensures db.committed == old(db.committed) && db.nextId == old(db.nextId) && db.open == old(db.open)
    {
      r := Get(m, filters);
      if r.Ok? {
        db.Remove(m, r.value);
        DeleteRowKeepsConstraints(old(db.store), m, r.value);
      }
    }
  }

  // ---------------------------------------------------------------- creating children

  /** A class without a `user_id` column is created from the caller's data as it is. */
  lemma Unstamped(m: Model, data: Row, user: Principal)
    requires !HasUserIdColumn(m)
    ensures Stamp(m, data, user) == data
  {
  }

  /** A successful insert of the next child keeps `Grown`. */
  lemma ChildInserted(s0: Store, before: Store, s: Store, child: Model, fk: Field, parent: int,
                      rows: seq<Row>, ks: seq<int>, k: int, next: int)
    requires Grown(s0, before, child, fk, parent, rows, ks) && |ks| < |rows|
    requires Insert(before, child, rows[|ks|][fk := VInt(parent)], next) == Ok((s, k))
    ensures Grown(s0, s, child, fk, parent, rows, ks + [k])
  {
    GrownStep(s0, before, s, child, fk, parent, rows, ks, k);
  }

  /** The loop the routes write around `create`: `sm.create(child, row)` for each row in order,
      with `fk` set to `parent`, stopping at the first failure (which rolls back the flush). */
  method CreateEach(sm: StorageManager, child: Model, fk: Field, parent: int, rows: seq<Row>) returns (r: Result<seq<int>>)
    requires sm.db.Valid() && !HasUserIdColumn(child) && fk in Columns(child)
    requires forall i | 0 <= i < |rows| :: rows[i].Keys <= Columns(child)
    modifies sm.db
    ensures sm.db.Valid()
    ensures sm.db.committed == old(sm.db.committed) && sm.db.open == old(sm.db.open)
    ensures r.Ok? ==> |r.value| == |rows| && Grown(old(sm.db.store), sm.db.store, child, fk, parent, rows, r.value)
    ensures r.Err? ==> r.error.IntegrityError? && sm.db.store == old(sm.db.committed)
    ensures RunAccepted(old(sm.db.store), child, fk, parent, rows) && Ahead(old(sm.db.store), old(sm.db.nextId))
            ==> r.Ok? && Ahead(sm.db.store, sm.db.nextId)
  {
    GrownNothing(sm.db.store, child, fk, parent, rows);
    var ks: seq<int> := [];
    var i := 0;
    while i < |rows|
      invariant 0 <= i <= |rows| && |ks| == i
      invariant sm.db.Valid()
      invariant sm.db.committed == old(sm.db.committed) && sm.db.open == old(sm.db.open)
      invariant Grown(old(sm.db.store), sm.db.store, child, fk, parent, rows, ks)
      invariant RunAccepted(old(sm.db.store), child, fk, parent, rows) && Ahead(old(sm.db.store), old(sm.db.nextId))
                ==> Ahead(sm.db.store, sm.db.nextId)
    {
      var c := CreateNext(sm, child, fk, parent, rows, old(sm.db.store), ks);
      if c.Err? {
        return Err(c.error);
      }
      ks := ks + [c.value];
      i := i + 1;
    }
    r := Ok(ks);
  }

  /** One round of that loop: `sm.create(child, row)` for the next row. */
  method CreateNext(sm: StorageManager, child: Model, fk: Field, parent: int, rows: seq<Row>, ghost s0: Store, ks: seq<int>)
    returns (c: Result<int>)
    requires sm.db.Valid() && !HasUserIdColumn(child) && fk in Columns(child)
    requires Grown(s0, sm.db.store, child, fk, parent, rows, ks) && |ks| < |rows| && rows[|ks|].Keys <= Columns(child)
    modifies sm.db
    ensures sm.db.Valid()
    ensures sm.db.committed == old(sm.db.committed) && sm.db.open == old(sm.db.open)
    ensures c.Ok? ==> Grown(s0, sm.db.store, child, fk, parent, rows, ks + [c.value])
    ensures c.Err? ==> c.error.IntegrityError? && sm.db.store == old(sm.db.committed)
    ensures RunAccepted(s0, child, fk, parent, rows) && Ahead(old(sm.db.store), old(sm.db.nextId))
            ==> c.Ok? && Ahead(sm.db.store, sm.db.nextId)
  {
    ghost var before := sm.db.store;
    ghost var next := sm.db.nextId;
    var data := rows[|ks|][fk := VInt(parent)];
    Unstamped(child, data, sm.user);
    RunNextOk(s0, before, child, fk, parent, rows, ks, next);
    c := sm.Create(child, data);
    if c.Ok? {
      ChildInserted(s0, before, sm.db.store, child, fk, parent, rows, ks, c.value, next);
    }
  }
}
