/** What the handlers of src/server/routes/meal_plan_items.py, tags.py and grocery_list_items.py
    share: loading one row by id through `safe_query`, narrowing a listing by the query parameters
    that were given, and copying a request's values onto a loaded row. */
module Routes {
  import opened Common
  import opened Models
  import opened ModelFacts
  import opened Query
  import opened Db
  import opened Storage

  /** `db.scalars(safe_query(select, [M], user).filter_by(id=id)).one()`: row `id` when the
      requester may see it, NoResultFound otherwise (the primary key rules out several rows). */
  method FindById(db: Session, user: Principal, m: Model, id: int) returns (r: Result<int>)
    requires db.Valid() && Keyed(m)
    ensures r.Ok? <==> RowVisible(db.store, user, m, id)
    ensures r.Ok? ==> r.value == id
    ensures r.Err? ==> r.error == NoResultFound
  {
    var q := Where(SafeQuery(Select, m, user), EqConds(ById(id)));
    assert q.conds == Scope(user, ById(id));
    TablesShaped(db.store, m);
    IdScope(db.store, user, m, id);
    r := One(db.store, m, q.conds);
  }

  /** `db.add(obj); db.commit()` for a new row built from `data`: the row is stored under a key
      not in use and committed, or the flush fails with an IntegrityError and the transaction is
      rolled back. */
  method AddAndCommit(db: Session, m: Model, data: Row) returns (r: Result<int>)
    requires db.Valid() && data.Keys <= Columns(m)
    modifies db
    ensures db.Valid()
    ensures r.Ok? ==> RowAdded(T(old(db.store), m), T(db.store, m), r.value, data)
    ensures r.Ok? ==> forall x: Model | x != m :: T(db.store, x) == T(old(db.store), x)
    ensures r.Ok? ==> db.committed == db.store
    ensures r.Err? ==> r.error.IntegrityError? && db.store == old(db.committed) && db.committed == old(db.committed)
    ensures r.Ok? <==> Insert(old(db.store), m, data, old(db.nextId)).Ok?
  {
    r := db.Add(m, data);
    if r.Ok? {
      db.Commit();
    }
  }

  /** `db.add(obj); db.commit()` for a loaded row `id` whose attributes were set to `row`: the new
      row is committed, or the flush fails with an IntegrityError and the transaction is rolled
      back. */
  method SaveAndCommit(db: Session, m: Model, id: int, row: Row) returns (r: Outcome)
    requires db.Valid() && id in T(db.store, m)
    modifies db
    ensures db.Valid()
    ensures r.Done? <==> Constraints(With(old(db.store), m, T(old(db.store), m)[id := row]))
    ensures r.Done? ==> T(db.store, m) == T(old(db.store), m)[id := row]
    ensures r.Done? ==> forall x: Model | x != m :: T(db.store, x) == T(old(db.store), x)
    ensures r.Done? ==> db.committed == db.store
    ensures r.Failed? ==> r.error.IntegrityError? && db.store == old(db.committed) && db.committed == old(db.committed)
  {
    r := db.Save(m, id, row);
    if r.Done? {
      db.Commit();
    }
  }

  // ---------------------------------------------------------------- query parameters

  /** The query parameters that carry a value (`param_val is not None`). */
  function Given(params: map<Field, Value>): (r: map<Field, Value>)
    ensures forall f :: f in r <==> f in params && params[f] != VNull
    ensures forall f | f in r :: r[f] == params[f]
  {
    map f | f in params && params[f] != VNull :: params[f]
  }

  /** Row `row` has the value of every parameter that carries one. */
  predicate ParamsHold(row: Row, params: map<Field, Value>) {
    forall f | f in params && params[f] != VNull :: Lookup(row, f) == Some(params[f])
  }

  /** `for key, val in params.items(): if val is not None: query = query.filter(getattr(M, key) == val)`. */
  method FilterBy(q: Query, params: map<Field, Value>) returns (r: Query)
    ensures r.stmt == q.stmt && r.model == q.model
    ensures r.conds == q.conds + EqConds(Given(params))
  {
    r := q;
    var rest := params;
    while rest != map[]
      invariant rest.Keys <= params.Keys
      invariant forall f | f in rest :: rest[f] == params[f]
      invariant r.stmt == q.stmt && r.model == q.model
      invariant r.conds == q.conds + (set f | f in params && f !in rest && params[f] != VNull :: Eq(f, params[f]))
      decreases |rest.Keys|
    {
      var f :| f in rest;
      if rest[f] != VNull {
        r := Where(r, {Eq(f, rest[f])});
      }
      rest := rest - {f};
    }
    assert (set f | f in params && params[f] != VNull :: Eq(f, params[f])) == EqConds(Given(params));
  }

  /** A listing narrowed by parameters reaches exactly the rows the requester may see that meet
      the other conditions and hold every parameter given. */
  lemma ParamsMatch(s: Store, user: Principal, m: Model, extra: set<Cond>, params: map<Field, Value>, k: int)
    requires params.Keys <= Columns(m) && UserId !in params
    ensures k in Matching(s, m, OwnerFilter(user) + extra + EqConds(Given(params))) <==>
      && k in T(s, m)
      && Visible(s, user, m, T(s, m)[k])
      && Satisfies(s, m, T(s, m)[k], extra)
      && ParamsHold(T(s, m)[k], params)
  {
    var all := extra + EqConds(Given(params));
    SafeQueryMatchesVisible(s, Select, m, user, all, k);
    assert Where(SafeQuery(Select, m, user), all).conds == OwnerFilter(user) + extra + EqConds(Given(params));
    if k in T(s, m) {
      var row := T(s, m)[k];
      SatisfiesBoth(s, m, row, extra, EqConds(Given(params)));
      ParamsSatisfied(s, m, row, params);
    }
  }

  /** A row meets two sets of conditions together exactly when it meets each. */
  lemma SatisfiesBoth(s: Store, m: Model, row: Row, a: set<Cond>, b: set<Cond>)
    ensures Satisfies(s, m, row, a + b) <==> Satisfies(s, m, row, a) && Satisfies(s, m, row, b)
  {
  }

  /** A row meets the equalities the given parameters become exactly when it holds them. */
  lemma ParamsSatisfied(s: Store, m: Model, row: Row, params: map<Field, Value>)
    requires params.Keys <= Columns(m) && UserId !in params
    ensures Satisfies(s, m, row, EqConds(Given(params))) <==> ParamsHold(row, params)
  {
    if Satisfies(s, m, row, EqConds(Given(params))) {
      forall f | f in params && params[f] != VNull ensures Lookup(row, f) == Some(params[f]) {
        assert Holds(s, m, row, Eq(f, params[f]));
      }
    }
    if ParamsHold(row, params) {
      forall c | c in EqConds(Given(params)) ensures Holds(s, m, row, c) {
        assert Lookup(row, c.field) == Some(params[c.field]);
      }
    }
  }

  // ---------------------------------------------------------------- setattr

  /** `for key, val in request_data.items(): setattr(obj, key, val)` on a loaded row: the new
      row is the old one overlaid with the request's values. */
  method SetAttrs(row: Row, data: Row) returns (r: Row)
    ensures r == row + data
  {
    r := row;
    var rest := data;
    while rest != map[]
      invariant rest.Keys <= data.Keys && forall f | f in rest :: rest[f] == data[f]
      invariant forall f :: f in r <==> f in row || (f in data && f !in rest)
      invariant forall f | f in data && f !in rest :: r[f] == data[f]
      invariant forall f | f in row && (f !in data || f in rest) :: r[f] == row[f]
      decreases |rest.Keys|
    {
      var f :| f in rest;
      r := r[f := rest[f]];
      rest := rest - {f};
    }
    Overlaid(row, data, r);
  }

  lemma Overlaid(row: Row, data: Row, r: Row)
    requires forall f :: f in r <==> f in row || f in data
    requires forall f | f in data :: r[f] == data[f]
    requires forall f | f in row && f !in data :: r[f] == row[f]
    ensures r == row + data
  {
  }

  /** A partial update changes only the attributes the request names: those take the request's
      values, every other attribute keeps its value, and no attribute appears or goes. */
  lemma OnlySuppliedChange(row: Row, data: Row)
    requires data.Keys <= row.Keys
    ensures (row + data).Keys == row.Keys
    ensures forall f | f in data :: (row + data)[f] == data[f]
    ensures forall f | f in row && f !in data :: (row + data)[f] == row[f]
  {
  }
}
