/** The row filters the backend builds (`filter_by`, `filter`, the ownership filter of
    `safe_query` in src/server/storage/utils.py) and what a filtered, optionally ordered query
    returns. */
module Query {
  import opened Common
  import opened Ordering
  import opened Models

  /** The requesting user: its id (which `user.user_id` also reads) and its role. */
  datatype Principal = Principal(id: int, role: string)

  /** One WHERE condition: `attr == v` (`attr IS NULL` when `v` is NULL), `attr >= v`, `attr <= v`. */
  datatype Cond = Eq(field: Field, value: Value) | AtLeast(field: Field, value: Value) | AtMost(field: Field, value: Value)

  /** The three statement builders `safe_query` accepts. */
  datatype Statement = Select | Update | Delete

  /** A statement over one mapped class with its WHERE conditions. */
  datatype Query = Query(stmt: Statement, model: Model, conds: set<Cond>)

  /** Attributes a filter may name: the columns and, for every class but the association table,
      the (possibly derived) `user_id`. */
  predicate Readable(m: Model, f: Field) {
    f in Columns(m) || (f == UserId && m != RecipeTagAssoc)
  }

  predicate Holds(s: Store, m: Model, row: Row, c: Cond) {
    var a := ReadAttr(s, m, row, c.field);
    match c
    case Eq(_, v) => a == Some(v)
    case AtLeast(_, v) => a.Some? && SqlLe(v, a.value)
    case AtMost(_, v) => a.Some? && SqlLe(a.value, v)
  }

  predicate Satisfies(s: Store, m: Model, row: Row, conds: set<Cond>) {
    forall c | c in conds :: Holds(s, m, row, c)
  }

  /** The keys of the rows of `m` that meet every condition. */
  function Matching(s: Store, m: Model, conds: set<Cond>): (ks: set<int>)
    ensures forall k :: k in ks <==> k in T(s, m) && Satisfies(s, m, T(s, m)[k], conds)
  {
    set k | k in T(s, m) && Satisfies(s, m, T(s, m)[k], conds)
  }

  /** What the ownership rule lets `user` see: an admin sees every row, a "user" only rows
      whose (possibly derived) `user_id` is its own id. */
  predicate Visible(s: Store, user: Principal, m: Model, row: Row) {
    user.role != "user" || Owner(s, m, row) == Some(VInt(user.id))
  }

  /** The conditions `safe_query` adds. */
  function OwnerFilter(user: Principal): set<Cond> {
    if user.role == "user" then {Eq(UserId, VInt(user.id))} else {}
  }

  /** `safe_query(query_func, [model], user)`: the statement over `m`, restricted to the
      requester's own rows exactly when its role is "user". */
  function SafeQuery(stmt: Statement, m: Model, user: Principal): (q: Query)
    ensures q.stmt == stmt && q.model == m
    ensures user.role == "user" ==> q.conds == {Eq(UserId, VInt(user.id))}
    ensures user.role != "user" ==> q.conds == {}
  {
    Query(stmt, m, OwnerFilter(user))
  }

  /** `query.filter_by(**filters)` / `query.filter(...)`: more conditions on the same statement. */
  function Where(q: Query, conds: set<Cond>): (r: Query)
    ensures r.stmt == q.stmt && r.model == q.model && r.conds == q.conds + conds
  {
    q.(conds := q.conds + conds)
  }

  /** `filter_by(**filters)` as conditions. */
  function EqConds(filters: map<Field, Value>): (cs: set<Cond>)
    ensures forall c :: c in cs <==> c.Eq? && c.field in filters && filters[c.field] == c.value
  {
    set f | f in filters :: Eq(f, filters[f])
  }

  /** The rows a safe query reaches are exactly the rows the requester may see that also meet
      the extra conditions — for a SELECT, an UPDATE and a DELETE alike. */
  lemma SafeQueryMatchesVisible(s: Store, stmt: Statement, m: Model, user: Principal, extra: set<Cond>, k: int)
    ensures var q := Where(SafeQuery(stmt, m, user), extra);
      k in Matching(s, m, q.conds) <==>
        k in T(s, m) && Visible(s, user, m, T(s, m)[k]) && Satisfies(s, m, T(s, m)[k], extra)
  {
    var q := Where(SafeQuery(stmt, m, user), extra);
    if k in T(s, m) {
      var row := T(s, m)[k];
      if user.role == "user" {
        var own := Eq(UserId, VInt(user.id));
        assert own in q.conds;
        if Satisfies(s, m, row, q.conds) {
          assert Holds(s, m, row, own);
        }
        if Visible(s, user, m, row) && Satisfies(s, m, row, extra) {
          assert Holds(s, m, row, own);
          assert forall c | c in q.conds :: c == own || c in extra;
        }
      } else {
        assert q.conds == extra;
      }
    }
  }

  /** A filter on the primary key reaches at most one row. */
  lemma IdFilterAtMostOne(s: Store, m: Model, conds: set<Cond>, id: int)
    requires TableShaped(s, m) && Keyed(m)
    requires Eq(Id, VInt(id)) in conds
    ensures Matching(s, m, conds) <= {id}
  {
    forall k | k in Matching(s, m, conds) ensures k == id {
      assert Holds(s, m, T(s, m)[k], Eq(Id, VInt(id)));
    }
  }

  /** Every condition names an attribute the class has; `filter_by` on any other name raises. */
  predicate Known(m: Model, conds: set<Cond>) {
    forall c | c in conds :: Readable(m, c.field)
  }

  // ---------------------------------------------------------------- results

  /** A set with an element other than `k` is not `{k}`. */
  lemma SingletonOrMore(ks: set<int>, k: int)
    requires k in ks
    ensures ks == {k} <==> |ks| == 1
  {
    if |ks| == 1 {
      assert |ks - {k}| == 0;
      assert ks - {k} == {};
    }
  }

  /** `.one_or_none()`: no row, the single matching row, or MultipleResultsFound. */
  method OneOrNone(s: Store, m: Model, conds: set<Cond>) returns (r: Result<Option<int>>)
    ensures r == Ok(None) <==> Matching(s, m, conds) == {}
    ensures r.Ok? && r.value.Some? ==> Matching(s, m, conds) == {r.value.value}
    ensures r.Err? <==> |Matching(s, m, conds)| > 1
    ensures r.Err? ==> r.error == MultipleResultsFound
  {
    var ks := Matching(s, m, conds);
    if ks == {} {
      return Ok(None);
    }
    Inhabited(ks);
    var k :| k in ks;
    SingletonOrMore(ks, k);
    if ks == {k} {
      r := Ok(Some(k));
    } else {
      r := Err(MultipleResultsFound);
    }
  }

  /** `.one()`: like `one_or_none`, but no row raises NoResultFound. */
  method One(s: Store, m: Model, conds: set<Cond>) returns (r: Result<int>)
    ensures r.Ok? ==> Matching(s, m, conds) == {r.value}
    ensures r == Err(NoResultFound) <==> Matching(s, m, conds) == {}
    ensures r.Err? ==> r.error == NoResultFound || (r.error == MultipleResultsFound && |Matching(s, m, conds)| > 1)
  {
    var o := OneOrNone(s, m, conds);
    match o
    case Err(e) => r := Err(e);
    case Ok(None) => r := Err(NoResultFound);
    case Ok(Some(k)) => r := Ok(k);
  }

  /** The value a row holds in the ORDER BY column (NULL when it has none). */
  function SortKey(row: Row, f: Field): Value {
    if f in row then row[f] else VNull
  }

  /** `ks` lists every key of `ids` exactly once. */
  predicate Enumerates(ks: seq<int>, ids: set<int>) {
    && |ks| == |ids|
    && (forall i | 0 <= i < |ks| :: ks[i] in ids)
    && (forall k | k in ids :: k in ks)
    && (forall i, j | 0 <= i < j < |ks| :: ks[i] != ks[j])
  }

  /** The rows of `ks` come in ascending order of column `f`. */
  predicate SortedBy(t: Table, ks: seq<int>, f: Field)
    requires forall i | 0 <= i < |ks| :: ks[i] in t
  {
    forall i, j | 0 <= i < j < |ks| :: ValueLe(SortKey(t[ks[i]], f), SortKey(t[ks[j]], f))
  }

  /** A non-empty set has an element. */
  lemma Inhabited(ids: set<int>)
    requires ids != {}
    ensures exists x :: x in ids
  {
    assert (forall x :: x !in ids) ==> ids == {};
  }

  /** A non-empty set of rows has a first row in the order of any column. */
  lemma {:induction false} LeastExists(t: Table, ids: set<int>, f: Field) returns (k: int)
    requires ids != {} && ids <= t.Keys
    ensures k in ids
    ensures forall j | j in ids :: ValueLe(SortKey(t[k], f), SortKey(t[j], f))
    decreases |ids|
  {
    Inhabited(ids);
    var x :| x in ids;
    var rest := ids - {x};
    if rest == {} {
      k := x;
      assert ids == {x};
      ValueLeReflexive(SortKey(t[x], f));
    } else {
      var y := LeastExists(t, rest, f);
      ValueLeTotal(SortKey(t[x], f), SortKey(t[y], f));
      if ValueLe(SortKey(t[x], f), SortKey(t[y], f)) {
        k := x;
        forall j | j in ids ensures ValueLe(SortKey(t[k], f), SortKey(t[j], f)) {
          if j == x {
            ValueLeReflexive(SortKey(t[x], f));
          } else {
            ValueLeTransitive(SortKey(t[x], f), SortKey(t[y], f), SortKey(t[j], f));
          }
        }
      } else {
        k := y;
      }
    }
  }

  lemma ValueLeReflexive(v: Value)
    ensures ValueLe(v, v)
  {
    ValueLeTotal(v, v);
  }

  /** The row the database returns next out of `rest`: one with the least ORDER BY value when
      there is an order, any one otherwise. */
  method PickNext(t: Table, rest: set<int>, orderBy: Option<Field>) returns (k: int)
    requires rest != {} && rest <= t.Keys
    ensures k in rest
    ensures orderBy.Some? ==> forall j | j in rest :: ValueLe(SortKey(t[k], orderBy.value), SortKey(t[j], orderBy.value))
  {
    if orderBy.Some? {
      var f := orderBy.value;
      ghost var least := LeastExists(t, rest, f);
      k :| k in rest && forall j | j in rest :: ValueLe(SortKey(t[k], f), SortKey(t[j], f));
    } else {
      Inhabited(rest);
      k :| k in rest;
    }
  }

  /** `query.all()`: the database hands back every matching row once, in ascending order of
      the ORDER BY column when there is one and in no particular order otherwise. */
  method Fetch(t: Table, ids: set<int>, orderBy: Option<Field>) returns (ks: seq<int>)
    requires ids <= t.Keys
    ensures Enumerates(ks, ids)
    ensures orderBy.Some? ==> SortedBy(t, ks, orderBy.value)
  {
    ks := [];
    var rest := ids;
    while rest != {}
      invariant rest <= ids
      invariant |ks| + |rest| == |ids|
      invariant forall i | 0 <= i < |ks| :: ks[i] in ids && ks[i] !in rest
      invariant forall k | k in ids :: k in ks || k in rest
      invariant forall i, j | 0 <= i < j < |ks| :: ks[i] != ks[j]
      invariant orderBy.Some? ==> SortedBy(t, ks, orderBy.value)
      invariant orderBy.Some? ==> forall i, j | 0 <= i < |ks| && j in rest ::
        ValueLe(SortKey(t[ks[i]], orderBy.value), SortKey(t[j], orderBy.value))
      decreases |rest|
    {
      var k := PickNext(t, rest, orderBy);
      ks := ks + [k];
      rest := rest - {k};
    }
  }
}
