/** The database session every request works through (`sqlalchemy.orm.Session` over the store
    of src/server/storage/models.py): a flush checks the store's constraints, a commit makes the
    flushed state durable, a rollback or a close discards what was not committed. */
module Db {
  import opened Common
  import opened Models
  import opened ModelFacts
  import opened RowChecks

  /** The key a new row of class `m` is stored under: its `id` when it has one, the next value
      of the autoincrement sequence otherwise (also the surrogate key of an association row). */
  function KeyOf(m: Model, row: Row, next: int): int {
    if Keyed(m) && Id in row && row[Id].VInt? then row[Id].i else next
  }

  /** A failed flush: `IntegrityError`, reporting a unique-key clash ("already exists") only when
      the NOT NULL checks that run first pass. */
  function FlushError(s: Store, m: Model, candidate: Store, clash: bool): Error {
    IntegrityError(TableShaped(candidate, m) && (clash || !UniqueOk(candidate)))
  }

  /** The store with `row` added to table `m` under a key `k` it does not use yet. */
  function Staged(s: Store, m: Model, k: int, row: Row): (r: Store)
    ensures k !in T(s, m) ==> T(r, m).Keys == T(s, m).Keys + {k}
    ensures k !in T(s, m) ==> forall j | j in T(s, m) :: T(r, m)[j] == T(s, m)[j]
    ensures k in T(r, m) && T(r, m)[k] == row
    ensures forall x: Model | x != m :: T(r, x) == T(s, x)
  {
    With(s, m, T(s, m)[k := row])
  }

  /** Row `k` was added to table `t0`, holding every value of `row`, and the other rows are
      kept. */
  ghost predicate RowAdded(t0: Table, t: Table, k: int, row: Row) {
    && k !in t0 && t.Keys == t0.Keys + {k}
    && (forall j | j in t0 :: t[j] == t0[j])
    && Extends(t[k], row)
  }

  /** `db.add(model_cls(**data)); db.flush()`: build the row, store it under a fresh key and
      check the constraints. */
  function Insert(s: Store, m: Model, data: Row, next: int): (r: Result<(Store, int)>)
    ensures !(data.Keys <= Columns(m)) ==> r == Err(InvalidKeyword)
    ensures r.Err? && data.Keys <= Columns(m) ==> r.error.IntegrityError?
    ensures r.Ok? ==> Constraints(r.value.0)
    ensures r.Ok? ==> var (s', k) := r.value;
      && k !in T(s, m)
      && T(s', m).Keys == T(s, m).Keys + {k}
      && (forall j | j in T(s, m) :: T(s', m)[j] == T(s, m)[j])
      && Extends(T(s', m)[k], data)
      && (Id !in data ==> k == next)
      && (forall x: Model | x != m :: T(s', x) == T(s, x))
  {
    match Build(m, data, next)
    case Err(e) => Err(e)
    case Ok(row) =>
      var k := KeyOf(m, row, next);
      var candidate := Staged(s, m, k, row);
      if k in T(s, m) || !Constraints(candidate) then Err(FlushError(s, m, candidate, k in T(s, m)))
      else Ok((candidate, k))
  }

  /** A row inserted under the drawn key keeps the store behind the advanced sequence. */
  lemma InsertStaysAhead(s: Store, m: Model, data: Row, next: int)
    ensures Insert(s, m, data, next).Ok? && Id !in data && Ahead(s, next) ==> Ahead(Insert(s, m, data, next).value.0, next + 1)
  {
    var ins := Insert(s, m, data, next);
    if ins.Ok? && Id !in data && Ahead(s, next) {
      AheadGrows(s, ins.value.0, m, next);
    }
  }

  /** The flush of a new row succeeds, under the drawn key, when the row names only columns,
      leaves the key to the sequence, fills every NOT NULL column, points at existing rows and
      repeats no unique value, and the drawn key is free. */
  lemma InsertOk(s: Store, m: Model, data: Row, next: int)
    requires Constraints(s)
    requires data.Keys <= Columns(m) && Id !in data && Fills(m, data)
    requires RowRefsOk(s, m, data) && RowUnique(s, m, data)
    requires next !in T(s, m)
    ensures Insert(s, m, data, next).Ok? && Insert(s, m, data, next).value.1 == next
  {
    BuiltShaped(m, data, next);
    var row := Build(m, data, next).value;
    BuiltChecks(s, m, data, row);
    StagedOk(s, m, next, row);
    assert KeyOf(m, row, next) == next;
    assert Staged(s, m, next, row) == With(s, m, T(s, m)[next := row]);
  }

  /** The flush of an UPDATE of row `k` of class `m` to `row`. */
  function Replace(s: Store, m: Model, k: int, row: Row): (r: Result<Store>)
    requires k in T(s, m)
    ensures r.Ok? <==> Constraints(With(s, m, T(s, m)[k := row]))
    ensures r.Ok? ==> T(r.value, m) == T(s, m)[k := row] && T(r.value, m)[k] == row
    ensures r.Ok? ==> forall x: Model | x != m :: T(r.value, x) == T(s, x)
    ensures r.Err? ==> r.error.IntegrityError?
  {
    var candidate := With(s, m, T(s, m)[k := row]);
    if Constraints(candidate) then Ok(candidate) else Err(FlushError(s, m, candidate, false))
  }

  /** Table `t` with `values` written over the rows `ks`. */
  function Patch(t: Table, ks: set<int>, values: Row): (r: Table)
    ensures r.Keys == t.Keys
    ensures forall j | j in t && j in ks :: r[j] == t[j] + values
    ensures forall j | j in t && j !in ks :: r[j] == t[j]
  {
    map j | j in t :: if j in ks then t[j] + values else t[j]
  }

  /** `update(model).where(...).values(**values)` on the rows `ks`: every listed column of those
      rows takes the new value, every other row and column is left alone. */
  function UpdateWhere(s: Store, m: Model, ks: set<int>, values: Row): (r: Result<Store>)
    ensures !(values.Keys <= Columns(m)) ==> r == Err(InvalidKeyword)
    ensures r.Err? && values.Keys <= Columns(m) ==> r.error.IntegrityError?
    ensures r.Ok? ==> Constraints(r.value) && T(r.value, m) == Patch(T(s, m), ks, values)
    ensures r.Ok? ==> forall x: Model | x != m :: T(r.value, x) == T(s, x)
  {
    if !(values.Keys <= Columns(m)) then Err(InvalidKeyword)
    else
      var candidate := With(s, m, Patch(T(s, m), ks, values));
      if Constraints(candidate) then Ok(candidate) else Err(FlushError(s, m, candidate, false))
  }

  /** The keys a sequence lists. */
  function Elems(ks: seq<int>): (r: set<int>)
    ensures forall i | 0 <= i < |ks| :: ks[i] in r
    ensures forall k | k in r :: k in ks
  {
    set k | k in ks
  }

  lemma ElemsSnoc(ks: seq<int>, k: int)
    ensures Elems(ks + [k]) == Elems(ks) + {k}
  {
    assert (ks + [k])[..|ks|] == ks;
  }

  /** `s` is `s0` with one new row of `child` per key of `ks`, under a key `s0` did not use,
      holding the values of the matching entry of `rows` with `fk` set to `parent`; nothing else
      differs. */
  ghost predicate Grown(s0: Store, s: Store, child: Model, fk: Field, parent: int, rows: seq<Row>, ks: seq<int>) {
    && |ks| <= |rows|
    && (forall i | 0 <= i < |ks| :: ks[i] !in T(s0, child))
    && (forall i, j | 0 <= i < j < |ks| :: ks[i] != ks[j])
    && T(s, child).Keys == T(s0, child).Keys + Elems(ks)
    && (forall j | j in T(s0, child) :: T(s, child)[j] == T(s0, child)[j])
    && (forall i | 0 <= i < |ks| :: Extends(T(s, child)[ks[i]], rows[i][fk := VInt(parent)]))
    && (forall x: Model | x != child :: T(s, x) == T(s0, x))
  }

  /** Before the first insert, the store has grown by nothing. */
  lemma GrownNothing(s: Store, child: Model, fk: Field, parent: int, rows: seq<Row>)
    ensures Grown(s, s, child, fk, parent, rows, [])
  {
    assert Elems([]) == {};
    assert T(s, child).Keys + {} == T(s, child).Keys;
  }

  /** One more successful insert keeps `Grown`. */
  lemma GrownStep(s0: Store, s: Store, s': Store, child: Model, fk: Field, parent: int, rows: seq<Row>, ks: seq<int>, k: int)
    requires Grown(s0, s, child, fk, parent, rows, ks) && |ks| < |rows|
    requires k !in T(s, child)
    requires T(s', child).Keys == T(s, child).Keys + {k}
    requires forall j | j in T(s, child) :: T(s', child)[j] == T(s, child)[j]
    requires Extends(T(s', child)[k], rows[|ks|][fk := VInt(parent)])
    requires forall x: Model | x != child :: T(s', x) == T(s, x)
    ensures Grown(s0, s', child, fk, parent, rows, ks + [k])
  {
    ElemsSnoc(ks, k);
    var ks' := ks + [k];
    forall i | 0 <= i < |ks'| ensures Extends(T(s', child)[ks'[i]], rows[i][fk := VInt(parent)]) {
      if i < |ks| {
        assert ks'[i] == ks[i] && ks[i] in T(s, child);
      }
    }
  }

  /** Every row of `rows`, once `fk` is set to `parent`, is one the database accepts next to the
      rows of `s` and to the earlier rows of the run: it gives no key of its own, fills every NOT
      NULL column and its references resolve in `s`. Rows of the association table also pair
      `parent` with tags that differ from row to row, and no association row of `s` holds
      `parent` already. No run inserts users or tags, and `fk` is not the key. */
  ghost predicate RunAccepted(s: Store, child: Model, fk: Field, parent: int, rows: seq<Row>) {
    && child != User && child != Tag && fk != Id
    && (forall i | 0 <= i < |rows| ::
          Id !in rows[i] && Fills(child, rows[i][fk := VInt(parent)]) && RowRefsOk(s, child, rows[i][fk := VInt(parent)]))
    && (child == RecipeTagAssoc ==>
          && fk == RecipeId
          && (forall j | j in T(s, RecipeTagAssoc) :: Lookup(T(s, RecipeTagAssoc)[j], RecipeId) != Some(VInt(parent)))
          && (forall i, j | 0 <= i < j < |rows| :: Lookup(rows[i], TagId) != Lookup(rows[j], TagId)))
  }

  /** The foreign key and every entry of a run name columns of the class that receives it. */
  ghost predicate RunFits(child: Model, fk: Field, rows: seq<Row>) {
    fk in Columns(child) && forall i | 0 <= i < |rows| :: rows[i].Keys <= Columns(child)
  }

  lemma RunFitsAt(child: Model, fk: Field, rows: seq<Row>, i: int)
    requires 0 <= i < |rows|
    ensures RunFits(child, fk, rows) ==> fk in Columns(child) && rows[i].Keys <= Columns(child)
  {
  }

  /** The next row of an accepted run goes in under a key the sequence is ahead of. */
  lemma RunNextOk(s0: Store, s: Store, child: Model, fk: Field, parent: int, rows: seq<Row>, ks: seq<int>, next: int)
    requires Constraints(s) && Grown(s0, s, child, fk, parent, rows, ks) && |ks| < |rows|
    ensures && fk in Columns(child) && rows[|ks|].Keys <= Columns(child)
            && RunAccepted(s0, child, fk, parent, rows) && Ahead(s, next)
            ==> Id !in rows[|ks|][fk := VInt(parent)] && Insert(s, child, rows[|ks|][fk := VInt(parent)], next).Ok?
  {
    if fk in Columns(child) && rows[|ks|].Keys <= Columns(child) && RunAccepted(s0, child, fk, parent, rows) && Ahead(s, next) {
      RunNextChecks(s0, s, child, fk, parent, rows, ks);
      InsertOk(s, child, rows[|ks|][fk := VInt(parent)], next);
    }
  }

  lemma RunNextChecks(s0: Store, s: Store, child: Model, fk: Field, parent: int, rows: seq<Row>, ks: seq<int>)
    requires Grown(s0, s, child, fk, parent, rows, ks) && |ks| < |rows|
    requires RunAccepted(s0, child, fk, parent, rows)
    requires fk in Columns(child) && rows[|ks|].Keys <= Columns(child)
    ensures var row := rows[|ks|][fk := VInt(parent)];
      && row.Keys <= Columns(child) && Id !in row && Fills(child, row)
      && RowRefsOk(s, child, row) && RowUnique(s, child, row)
  {
    var row := rows[|ks|][fk := VInt(parent)];
    assert Id !in rows[|ks|] && Fills(child, row) && RowRefsOk(s0, child, row);
    RefsCarry(s0, s, child, row);
    if child == RecipeTagAssoc {
      PairsCarry(s0, s, parent, rows, ks);
    }
  }

  /** The references of a new row resolve the same in a store whose other tables are those of `s0`. */
  lemma RefsCarry(s0: Store, s: Store, child: Model, row: Row)
    requires child != User && child != Tag && RowRefsOk(s0, child, row)
    requires forall x: Model | x != child :: T(s, x) == T(s0, x)
    ensures RowRefsOk(s, child, row)
  {
    match child
    case Recipe => assert T(s, User) == T(s0, User);
    case GroceryList => assert T(s, User) == T(s0, User);
    case RecipeTagAssoc => assert T(s, Recipe) == T(s0, Recipe) && T(s, Tag) == T(s0, Tag);
    case Ingredient => assert T(s, Recipe) == T(s0, Recipe);
    case Step => assert T(s, Recipe) == T(s0, Recipe);
    case MealPlanItem => assert T(s, Recipe) == T(s0, Recipe);
    case GroceryListItem => assert T(s, GroceryList) == T(s0, GroceryList);
  }

  /** The next association row of an accepted run pairs `parent` with a tag no row of the store
      pairs it with: the old rows do not hold `parent`, the run's rows hold other tags. */
  lemma PairsCarry(s0: Store, s: Store, parent: int, rows: seq<Row>, ks: seq<int>)
    requires Grown(s0, s, RecipeTagAssoc, RecipeId, parent, rows, ks) && |ks| < |rows|
    requires RunAccepted(s0, RecipeTagAssoc, RecipeId, parent, rows)
    ensures RowUnique(s, RecipeTagAssoc, rows[|ks|][RecipeId := VInt(parent)])
  {
    var row := rows[|ks|][RecipeId := VInt(parent)];
    var t := T(s, RecipeTagAssoc);
    forall j | j in t ensures Lookup(t[j], RecipeId) != Lookup(row, RecipeId) || Lookup(t[j], TagId) != Lookup(row, TagId) {
      if j in T(s0, RecipeTagAssoc) {
        assert t[j] == T(s0, RecipeTagAssoc)[j];
      } else {
        assert j in Elems(ks);
        var i :| 0 <= i < |ks| && ks[i] == j;
        assert Fills(RecipeTagAssoc, rows[i][RecipeId := VInt(parent)]);
        assert TagId in rows[i];
        assert Extends(t[j], rows[i][RecipeId := VInt(parent)]);
        assert Lookup(t[j], TagId) == Lookup(rows[i], TagId);
        assert Lookup(rows[i], TagId) != Lookup(rows[|ks|], TagId);
      }
    }
  }

  lemma {:induction false} ElemsAppend(a: seq<int>, b: seq<int>)
    ensures Elems(a + b) == Elems(a) + Elems(b)
    decreases |b|
  {
    if |b| == 0 {
      assert a + b == a;
    } else {
      var b' := b[..|b| - 1];
      ElemsAppend(a, b');
      assert a + b == (a + b') + [b[|b| - 1]];
      assert b == b' + [b[|b| - 1]];
      ElemsSnoc(a + b', b[|b| - 1]);
      ElemsSnoc(b', b[|b| - 1]);
    }
  }

  /** Two runs of inserts, one after the other, are one run over both lists of rows. */
  lemma GrownConcat(s0: Store, s1: Store, s2: Store, child: Model, fk: Field, parent: int,
                    rowsA: seq<Row>, ksA: seq<int>, rowsB: seq<Row>, ksB: seq<int>)
    requires Grown(s0, s1, child, fk, parent, rowsA, ksA) && |ksA| == |rowsA|
    requires Grown(s1, s2, child, fk, parent, rowsB, ksB) && |ksB| == |rowsB|
    ensures Grown(s0, s2, child, fk, parent, rowsA + rowsB, ksA + ksB)
  {
    ElemsAppend(ksA, ksB);
    ConcatFresh(T(s0, child), T(s1, child), ksA, ksB);
    ConcatDistinct(T(s1, child), ksA, ksB);
    ConcatExtends(T(s1, child), T(s2, child), fk, parent, rowsA, ksA, rowsB, ksB);
  }

  lemma ConcatFresh(t0: map<int, Row>, t1: map<int, Row>, ksA: seq<int>, ksB: seq<int>)
    requires forall i | 0 <= i < |ksA| :: ksA[i] !in t0
    requires forall i | 0 <= i < |ksB| :: ksB[i] !in t1
    requires t0.Keys <= t1.Keys
    ensures forall i | 0 <= i < |ksA + ksB| :: (ksA + ksB)[i] !in t0
  {
    var ks := ksA + ksB;
    forall i | 0 <= i < |ks| ensures ks[i] !in t0 {
      if i >= |ksA| {
        assert ks[i] == ksB[i - |ksA|];
      }
    }
  }

  lemma ConcatDistinct(t1: map<int, Row>, ksA: seq<int>, ksB: seq<int>)
    requires forall i, j | 0 <= i < j < |ksA| :: ksA[i] != ksA[j]
    requires forall i, j | 0 <= i < j < |ksB| :: ksB[i] != ksB[j]
    requires Elems(ksA) <= t1.Keys
    requires forall i | 0 <= i < |ksB| :: ksB[i] !in t1
    ensures forall i, j | 0 <= i < j < |ksA + ksB| :: (ksA + ksB)[i] != (ksA + ksB)[j]
  {
    var ks := ksA + ksB;
    forall i, j | 0 <= i < j < |ks| ensures ks[i] != ks[j] {
      if j >= |ksA| {
        assert ks[j] == ksB[j - |ksA|] && ks[j] !in t1;
        if i < |ksA| {
          assert ks[i] == ksA[i] && ksA[i] in Elems(ksA);
        }
      }
    }
  }

  lemma ConcatExtends(t1: map<int, Row>, t2: map<int, Row>, fk: Field, parent: int,
                      rowsA: seq<Row>, ksA: seq<int>, rowsB: seq<Row>, ksB: seq<int>)
    requires |ksA| == |rowsA| && |ksB| == |rowsB|
    requires Elems(ksA) <= t1.Keys && t1.Keys <= t2.Keys
    requires forall j | j in t1 :: t2[j] == t1[j]
    requires forall i | 0 <= i < |ksA| :: ksA[i] in t1 && Extends(t1[ksA[i]], rowsA[i][fk := VInt(parent)])
    requires forall i | 0 <= i < |ksB| :: ksB[i] in t2 && Extends(t2[ksB[i]], rowsB[i][fk := VInt(parent)])
    ensures forall i | 0 <= i < |ksA + ksB| ::
      (ksA + ksB)[i] in t2 && Extends(t2[(ksA + ksB)[i]], (rowsA + rowsB)[i][fk := VInt(parent)])
  {
    var ks := ksA + ksB;
    var rows := rowsA + rowsB;
    forall i | 0 <= i < |ks| ensures ks[i] in t2 && Extends(t2[ks[i]], rows[i][fk := VInt(parent)]) {
      if i < |ksA| {
        assert ks[i] == ksA[i] && rows[i] == rowsA[i];
      } else {
        assert ks[i] == ksB[i - |ksA|] && rows[i] == rowsB[i - |ksA|];
      }
    }
  }

  /** After `s0`, the members of row `k` in the list stored in `child` (the rows whose `fk` is
      `k`) are exactly the rows `ks`, one per entry of `rows` and holding its values with `fk` set
      to `k`; the rows of `child` that belong to other owners are untouched. */
  ghost predicate Relinked(s0: Store, s: Store, child: Model, fk: Field, k: int, rows: seq<Row>, ks: seq<int>) {
    && |ks| == |rows|
    && (forall i | 0 <= i < |ks| :: ks[i] in T(s, child) && Extends(T(s, child)[ks[i]], rows[i][fk := VInt(k)]))
    && (forall i, j | 0 <= i < j < |ks| :: ks[i] != ks[j])
    && RefKeys(T(s, child), fk, k) == Elems(ks)
    && (forall j | j in T(s0, child) && !RefersTo(T(s0, child)[j], fk, {k}) :: j in T(s, child) && T(s, child)[j] == T(s0, child)[j])
    && (forall j | j in T(s, child) && !RefersTo(T(s, child)[j], fk, {k}) :: j in T(s0, child))
  }

  /** Emptying the list and adding the new members one by one relinks it. */
  lemma GrownRelinks(s0: Store, s1: Store, s: Store, child: Model, fk: Field, k: int, rows: seq<Row>, ks: seq<int>)
    requires T(s1, child) == DropRefs(T(s0, child), fk, {k})
    requires Grown(s1, s, child, fk, k, rows, ks) && |ks| == |rows|
    ensures Relinked(s0, s, child, fk, k, rows, ks)
  {
    GrownNoStrangers(s0, s1, s, child, fk, k, rows, ks);
    GrownMembers(s1, s, child, fk, k, rows, ks);
  }

  lemma GrownNoStrangers(s0: Store, s1: Store, s: Store, child: Model, fk: Field, k: int, rows: seq<Row>, ks: seq<int>)
    requires T(s1, child) == DropRefs(T(s0, child), fk, {k})
    requires Grown(s1, s, child, fk, k, rows, ks) && |ks| == |rows|
    ensures forall j | j in T(s, child) && !RefersTo(T(s, child)[j], fk, {k}) :: j in T(s0, child)
  {
    forall j | j in Elems(ks) ensures j in T(s, child) && RefersTo(T(s, child)[j], fk, {k}) {
      NewRowLinked(T(s, child), fk, k, rows, ks, j);
    }
  }

  lemma GrownMembers(s1: Store, s: Store, child: Model, fk: Field, k: int, rows: seq<Row>, ks: seq<int>)
    requires forall j | j in T(s1, child) :: !RefersTo(T(s1, child)[j], fk, {k})
    requires Grown(s1, s, child, fk, k, rows, ks) && |ks| == |rows|
    ensures RefKeys(T(s, child), fk, k) == Elems(ks)
  {
    var t := T(s, child);
    forall j | j in t && RefersTo(t[j], fk, {k}) ensures j in Elems(ks) {
      OldRowsStayUnlinked(T(s1, child), t, fk, k, j);
    }
    forall j | j in Elems(ks) ensures j in t && RefersTo(t[j], fk, {k}) {
      NewRowLinked(t, fk, k, rows, ks, j);
    }
  }

  /** A row kept from a table without links to `k` still has none. */
  lemma OldRowsStayUnlinked(t1: Table, t: Table, fk: Field, k: int, j: int)
    requires forall j | j in t1 :: !RefersTo(t1[j], fk, {k})
    requires forall j | j in t1 :: j in t && t[j] == t1[j]
    requires j in t && RefersTo(t[j], fk, {k})
    ensures j !in t1
  {
  }

  /** A row added with its foreign key set to `k` refers to `k`. */
  lemma NewRowLinked(t: Table, fk: Field, k: int, rows: seq<Row>, ks: seq<int>, j: int)
    requires |ks| <= |rows|
    requires forall i | 0 <= i < |ks| :: ks[i] in t && Extends(t[ks[i]], rows[i][fk := VInt(k)])
    requires j in Elems(ks)
    ensures j in t && RefersTo(t[j], fk, {k})
  {
    var i :| 0 <= i < |ks| && ks[i] == j;
    assert fk in rows[i][fk := VInt(k)];
  }

  /** A store that agrees on `child` keeps the same relinking. */
  lemma RelinkedFrame(s0: Store, s: Store, s': Store, child: Model, fk: Field, k: int, rows: seq<Row>, ks: seq<int>)
    requires Relinked(s0, s, child, fk, k, rows, ks)
    requires T(s', child) == T(s, child)
    ensures Relinked(s0, s', child, fk, k, rows, ks)
  {
  }

  /** The classes that hold the members of the relationships `rels` of `m`. */
  function ChildModels(m: Model, rels: set<Field>): set<Model> {
    set rel | rel in rels && rel in ListRelations(m) :: ChildOf(m, rel).0
  }

  /** Two relationships of one class keep their members in different classes, none of them the
      owner's. */
  lemma ChildOfDistinct(m: Model, rel1: Field, rel2: Field)
    requires rel1 in ListRelations(m) && rel2 in ListRelations(m)
    ensures rel1 != rel2 ==> ChildOf(m, rel1).0 != ChildOf(m, rel2).0
    ensures ChildOf(m, rel1).0 != m && Leaf(ChildOf(m, rel1).0)
  {
  }

  /** List `rel` of row `k` of `m` is one the database accepts once the old members are gone:
      its entries name columns of the member class only, and the run they make is accepted next
      to the other rows of `s`. */
  ghost predicate ListAccepted(s: Store, m: Model, k: int, rel: Field, rows: seq<Row>)
    requires rel in ListRelations(m)
  {
    && RunFits(ChildOf(m, rel).0, ChildOf(m, rel).1, rows)
    && RunAccepted(With(s, ChildOf(m, rel).0, DropRefs(T(s, ChildOf(m, rel).0), ChildOf(m, rel).1, {k})),
                   ChildOf(m, rel).0, ChildOf(m, rel).1, k, rows)
  }

  /** Every list of `lists` is a relationship of `m` the database accepts. */
  ghost predicate ListsAccepted(s: Store, m: Model, k: int, lists: map<Field, seq<Row>>) {
    forall rel | rel in lists :: rel in ListRelations(m) && ListAccepted(s, m, k, rel, lists[rel])
  }

  /** Whether a run is accepted depends on the class that receives it and on the keys of the
      classes its rows refer to, none of which is a leaf. */
  lemma RunAcceptedCarry(s: Store, s': Store, child: Model, fk: Field, parent: int, rows: seq<Row>)
    requires T(s', child) == T(s, child)
    requires forall x: Model | !Leaf(x) :: T(s', x).Keys == T(s, x).Keys
    ensures RunAccepted(s, child, fk, parent, rows) ==> RunAccepted(s', child, fk, parent, rows)
  {
    if RunAccepted(s, child, fk, parent, rows) {
      forall i | 0 <= i < |rows| ensures RowRefsOk(s', child, rows[i][fk := VInt(parent)]) {
        RefsCarryKeys(s, s', child, rows[i][fk := VInt(parent)]);
      }
    }
  }

  /** The references of a row resolve alike in two stores whose classes other than the leaves
      hold the same keys. */
  lemma RefsCarryKeys(s: Store, s': Store, child: Model, row: Row)
    requires forall x: Model | !Leaf(x) :: T(s', x).Keys == T(s, x).Keys
    ensures RowRefsOk(s, child, row) ==> RowRefsOk(s', child, row)
  {
    assert T(s', User).Keys == T(s, User).Keys && T(s', Recipe).Keys == T(s, Recipe).Keys;
    assert T(s', Tag).Keys == T(s, Tag).Keys && T(s', GroceryList).Keys == T(s, GroceryList).Keys;
  }

  /** An accepted list stays accepted while its member class stays as it was and no other class
      that rows refer to gains or loses a key. */
  lemma ListAcceptedCarry(s: Store, s': Store, m: Model, k: int, rel: Field, rows: seq<Row>)
    requires rel in ListRelations(m)
    requires T(s', ChildOf(m, rel).0) == T(s, ChildOf(m, rel).0)
    requires forall x: Model | !Leaf(x) :: T(s', x).Keys == T(s, x).Keys
    ensures ListAccepted(s, m, k, rel, rows) ==> ListAccepted(s', m, k, rel, rows)
  {
    var child, fk := ChildOf(m, rel).0, ChildOf(m, rel).1;
    ChildOfDistinct(m, rel, rel);
    RunAcceptedCarry(With(s, child, DropRefs(T(s, child), fk, {k})), With(s', child, DropRefs(T(s', child), fk, {k})),
                     child, fk, k, rows);
  }

  /** Writing new column values over row `k` keeps every key, so the lists of `k` stay accepted
      and the store stays ahead of the sequence. */
  lemma SavedStaysAccepted(s0: Store, s1: Store, m: Model, k: int, row: Row, lists: map<Field, seq<Row>>, next: int)
    requires k in T(s0, m) && T(s1, m) == T(s0, m)[k := row]
    requires forall x: Model | x != m :: T(s1, x) == T(s0, x)
    ensures ListsAccepted(s0, m, k, lists) ==> ListsAccepted(s1, m, k, lists)
    ensures Ahead(s0, next) ==> Ahead(s1, next)
  {
    assert T(s1, m).Keys == T(s0, m).Keys;
    forall rel | rel in lists && rel in ListRelations(m)
      ensures ListAccepted(s0, m, k, rel, lists[rel]) ==> ListAccepted(s1, m, k, rel, lists[rel])
    {
      ChildOfDistinct(m, rel, rel);
      ListAcceptedCarry(s0, s1, m, k, rel, lists[rel]);
    }
    if Ahead(s0, next) {
      forall x: Model, j | j in T(s1, x) ensures j < next {
        assert j in T(s0, x);
      }
    }
  }

  /** Every list of `lists` named in `done` is relinked, and only the classes holding their
      members changed. */
  ghost predicate Processed(s0: Store, s: Store, m: Model, k: int, lists: map<Field, seq<Row>>, done: set<Field>)
    requires done <= lists.Keys <= ListRelations(m)
  {
    && (forall rel | rel in done :: exists ks :: Relinked(s0, s, ChildOf(m, rel).0, ChildOf(m, rel).1, k, lists[rel], ks))
    && (forall x: Model | x !in ChildModels(m, done) :: T(s, x) == T(s0, x))
  }

  /** Before the first list, nothing is relinked and nothing changed. */
  lemma ProcessedNothing(s: Store, m: Model, k: int, lists: map<Field, seq<Row>>)
    requires lists.Keys <= ListRelations(m)
    ensures Processed(s, s, m, k, lists, {})
  {
  }

  /** Relinking one more list extends `Processed`. */
  lemma ProcessedStep(s0: Store, before: Store, dropped: Store, s: Store, m: Model, k: int,
                      lists: map<Field, seq<Row>>, done: set<Field>, rel: Field, ks: seq<int>)
    requires done <= lists.Keys <= ListRelations(m) && rel in lists && rel !in done
    requires Processed(s0, before, m, k, lists, done)
    requires T(dropped, ChildOf(m, rel).0) == DropRefs(T(before, ChildOf(m, rel).0), ChildOf(m, rel).1, {k})
    requires Grown(dropped, s, ChildOf(m, rel).0, ChildOf(m, rel).1, k, lists[rel], ks) && |ks| == |lists[rel]|
    requires forall x: Model | x != ChildOf(m, rel).0 :: T(s, x) == T(before, x)
    ensures Processed(s0, s, m, k, lists, done + {rel})
  {
    var (child, fk) := ChildOf(m, rel);
    NewChildUntouched(s0, before, m, lists, done, rel);
    GrownRelinks(s0, dropped, s, child, fk, k, lists[rel], ks);
    EarlierListsKept(s0, before, s, m, k, lists, done, rel);
    ProcessedJoin(s0, before, s, m, k, lists, done, rel, ks);
  }

  /** The class holding the members of a list not yet relinked is still as it was. */
  lemma NewChildUntouched(s0: Store, before: Store, m: Model, lists: map<Field, seq<Row>>, done: set<Field>, rel: Field)
    requires done <= lists.Keys <= ListRelations(m) && rel in lists && rel !in done
    requires forall x: Model | x !in ChildModels(m, done) :: T(before, x) == T(s0, x)
    ensures T(before, ChildOf(m, rel).0) == T(s0, ChildOf(m, rel).0)
  {
    var child := ChildOf(m, rel).0;
    forall rel' | rel' in done ensures ChildOf(m, rel').0 != child {
      ChildOfDistinct(m, rel, rel');
    }
    assert child !in ChildModels(m, done);
  }

  /** Once the old members of list `rel` are gone, an accepted list is a run the store accepts,
      and the store is still ahead of the sequence. */
  lemma DroppedAccepts(s0: Store, before: Store, dropped: Store, m: Model, k: int,
                       lists: map<Field, seq<Row>>, done: set<Field>, rel: Field, next: int)
    requires done <= lists.Keys <= ListRelations(m) && rel in lists && rel !in done
    requires Processed(s0, before, m, k, lists, done)
    requires T(dropped, ChildOf(m, rel).0) == DropRefs(T(before, ChildOf(m, rel).0), ChildOf(m, rel).1, {k})
    requires forall x: Model | x != ChildOf(m, rel).0 :: T(dropped, x) == T(before, x)
    ensures ListsAccepted(s0, m, k, lists) && Ahead(before, next) ==>
      && RunFits(ChildOf(m, rel).0, ChildOf(m, rel).1, lists[rel])
      && RunAccepted(dropped, ChildOf(m, rel).0, ChildOf(m, rel).1, k, lists[rel]) && Ahead(dropped, next)
  {
    var child, fk := ChildOf(m, rel).0, ChildOf(m, rel).1;
    StillAccepted(s0, before, m, k, lists, done, rel);
    RunAcceptedCarry(With(before, child, DropRefs(T(before, child), fk, {k})), dropped, child, fk, k, lists[rel]);
    ShrunkStaysAhead(before, dropped, child, next);
  }

  /** A list not yet relinked is accepted as it was while earlier lists are relinked. */
  lemma StillAccepted(s0: Store, before: Store, m: Model, k: int, lists: map<Field, seq<Row>>, done: set<Field>, rel: Field)
    requires done <= lists.Keys <= ListRelations(m) && rel in lists && rel !in done
    requires Processed(s0, before, m, k, lists, done)
    ensures ListsAccepted(s0, m, k, lists) ==> ListAccepted(before, m, k, rel, lists[rel])
  {
    assert ListsAccepted(s0, m, k, lists) ==> ListAccepted(s0, m, k, rel, lists[rel]);
    NewChildUntouched(s0, before, m, lists, done, rel);
    ParentsKept(s0, before, m, done);
    ListAcceptedCarry(s0, before, m, k, rel, lists[rel]);
  }

  /** Relinking lists changes only leaf classes. */
  lemma ParentsKept(s0: Store, s: Store, m: Model, done: set<Field>)
    requires forall x: Model | x !in ChildModels(m, done) :: T(s, x) == T(s0, x)
    ensures forall x: Model | !Leaf(x) :: T(s, x) == T(s0, x)
  {
    forall x: Model | !Leaf(x) ensures T(s, x) == T(s0, x) {
      forall rel | rel in done && rel in ListRelations(m) ensures ChildOf(m, rel).0 != x {
        ChildOfDistinct(m, rel, rel);
      }
    }
  }

  /** A store that lost rows of one class is still ahead of the sequence. */
  lemma ShrunkStaysAhead(s: Store, s': Store, child: Model, next: int)
    requires T(s', child).Keys <= T(s, child).Keys
    requires forall x: Model | x != child :: T(s', x) == T(s, x)
    ensures Ahead(s, next) ==> Ahead(s', next)
  {
    if Ahead(s, next) {
      forall x: Model, j | j in T(s', x) ensures j < next {
        assert j in T(s, x);
      }
    }
  }

  /** The lists relinked before, together with list `rel`, make up `Processed` over both. */
  lemma ProcessedJoin(s0: Store, before: Store, s: Store, m: Model, k: int,
                      lists: map<Field, seq<Row>>, done: set<Field>, rel: Field, ks: seq<int>)
    requires done <= lists.Keys <= ListRelations(m) && rel in lists && rel !in done
    requires forall rel' | rel' in done :: exists ks :: Relinked(s0, s, ChildOf(m, rel').0, ChildOf(m, rel').1, k, lists[rel'], ks)
    requires Relinked(s0, s, ChildOf(m, rel).0, ChildOf(m, rel).1, k, lists[rel], ks)
    requires forall x: Model | x !in ChildModels(m, done) :: T(before, x) == T(s0, x)
    requires forall x: Model | x != ChildOf(m, rel).0 :: T(s, x) == T(before, x)
    ensures Processed(s0, s, m, k, lists, done + {rel})
  {
    forall x: Model | x !in ChildModels(m, done + {rel}) ensures T(s, x) == T(s0, x) {
      assert x != ChildOf(m, rel).0 && x !in ChildModels(m, done);
    }
  }

  /** Relinking list `rel` leaves the lists relinked before it as they were. */
  lemma EarlierListsKept(s0: Store, before: Store, s: Store, m: Model, k: int,
                         lists: map<Field, seq<Row>>, done: set<Field>, rel: Field)
    requires done <= lists.Keys <= ListRelations(m) && rel in lists && rel !in done
    requires forall rel' | rel' in done :: exists ks :: Relinked(s0, before, ChildOf(m, rel').0, ChildOf(m, rel').1, k, lists[rel'], ks)
    requires forall x: Model | x != ChildOf(m, rel).0 :: T(s, x) == T(before, x)
    ensures forall rel' | rel' in done :: exists ks :: Relinked(s0, s, ChildOf(m, rel').0, ChildOf(m, rel').1, k, lists[rel'], ks)
  {
    forall rel' | rel' in done ensures exists ks' :: Relinked(s0, s, ChildOf(m, rel').0, ChildOf(m, rel').1, k, lists[rel'], ks') {
      ChildOfDistinct(m, rel, rel');
      var ks' :| Relinked(s0, before, ChildOf(m, rel').0, ChildOf(m, rel').1, k, lists[rel'], ks');
      RelinkedFrame(s0, before, s, ChildOf(m, rel').0, ChildOf(m, rel').1, k, lists[rel'], ks');
    }
  }

  /** The session of one request. `store` is what the session sees (flushed changes included),
      `committed` what the database holds durably. */
  class Session {
    var store: Store
    var committed: Store
    var nextId: int
    var open: bool

    ghost predicate Valid()
      reads this
    {
      Constraints(store) && Constraints(committed)
    }

    /** `SessionLocal()`: a fresh session over the committed database. */
    constructor (db: Store, next: int)
      requires Constraints(db)
      ensures Valid()
      ensures store == db && committed == db && nextId == next && open
    {
      store := db;
      committed := db;
      nextId := next;
      open := true;
    }

    /** `db.add(model_cls(**data)); db.flush()`. The sequence value is drawn whenever the row has
        no explicit id, whether or not the flush then succeeds; a failed flush rolls the
        transaction back, a constructor error happens before anything is flushed. */
    method Add(m: Model, data: Row) returns (r: Result<int>)
      requires Valid()
      modifies this
      ensures Valid()
      ensures var ins := Insert(old(store), m, data, old(nextId));
        && (ins.Ok? ==> store == ins.value.0 && r == Ok(ins.value.1))
        && (ins.Err? ==> r == Err(ins.error))
        && (ins.Err? && ins.error.IntegrityError? ==> store == old(committed))
        && (ins.Err? && !ins.error.IntegrityError? ==> store == old(store))
      ensures nextId == if Keyed(m) && Id in data then old(nextId) else old(nextId) + 1
      ensures r.Ok? && Id !in data && Ahead(old(store), old(nextId)) ==> Ahead(store, nextId)
      ensures committed == old(committed) && open == old(open)
    {
      var ins := Insert(store, m, data, nextId);
      InsertStaysAhead(store, m, data, nextId);
      if ins.Ok? {
        store, r := ins.value.0, Ok(ins.value.1);
      } else if ins.error.IntegrityError? {
        store, r := committed, Err(ins.error);
      } else {
        r := Err(ins.error);
      }
      nextId := if Keyed(m) && Id in data then nextId else nextId + 1;
    }

    /** Flush of `setattr` changes to a loaded row. */
    method Save(m: Model, k: int, row: Row) returns (r: Outcome)
      requires Valid() && k in T(store, m)
      modifies this
      ensures Valid()
      ensures var rep := Replace(old(store), m, k, row);
        && (rep.Ok? ==> store == rep.value && r == Done)
        && (rep.Err? ==> store == old(committed) && r == Failed(rep.error))
      ensures committed == old(committed) && nextId == old(nextId) && open == old(open)
    {
      var rep := Replace(store, m, k, row);
      if rep.Ok? {
        store := rep.value;
        r := Done;
      } else {
        store := committed;
        r := Failed(rep.error);
      }
    }

    /** `db.delete(item); db.flush()`: the row goes, and the database cascades. */
    method Remove(m: Model, k: int)
      requires Valid()
      modifies this
      ensures Valid()
      ensures store == DeleteRow(old(store), m, k)
      ensures committed == old(committed) && nextId == old(nextId) && open == old(open)
    {
      DeleteRowKeepsConstraints(store, m, k);
      store := DeleteRow(store, m, k);
    }

    /** The flush that empties a one-to-many list (`attr.clear()` under `delete-orphan`, or the
        association rows of a many-to-many list): every row of `child` whose `fk` is `parent`
        goes. */
    method RemoveChildren(child: Model, fk: Field, parent: int)
      requires Valid() && Leaf(child)
      modifies this
      ensures Valid()
      ensures T(store, child) == DropRefs(T(old(store), child), fk, {parent})
      ensures forall x: Model | x != child :: T(store, x) == T(old(store), x)
      ensures committed == old(committed) && nextId == old(nextId) && open == old(open)
    {
      DropRefsShrinks(T(store, child), fk, {parent});
      LeafShrinkKeepsConstraints(store, child, DropRefs(T(store, child), fk, {parent}));
      store := With(store, child, DropRefs(T(store, child), fk, {parent}));
    }

    /** One `db.add` and flush per row of `rows`, each with its foreign key `fk` set to `parent`,
        stopping at the first failure. */
    method AddChildren(child: Model, fk: Field, parent: int, rows: seq<Row>) returns (r: Result<seq<int>>)
      requires Valid()
      modifies this
      ensures Valid()
      ensures committed == old(committed) && open == old(open)
      ensures r.Ok? ==> |r.value| == |rows| && Grown(old(store), store, child, fk, parent, rows, r.value)
      ensures r.Err? ==> r.error == InvalidKeyword || r.error.IntegrityError?
      ensures RunFits(child, fk, rows) && RunAccepted(old(store), child, fk, parent, rows) && Ahead(old(store), old(nextId))
              ==> r.Ok? && Ahead(store, nextId)
    {
      ghost var accepted := RunFits(child, fk, rows) && RunAccepted(store, child, fk, parent, rows) && Ahead(store, nextId);
      GrownNothing(store, child, fk, parent, rows);
      var ks: seq<int> := [];
      var i := 0;
      while i < |rows|
        invariant 0 <= i <= |rows| && |ks| == i
        invariant Valid()
        invariant committed == old(committed) && open == old(open)
        invariant Grown(old(store), store, child, fk, parent, rows, ks)
        invariant accepted ==> Ahead(store, nextId)
      {
        var a := AddNext(child, fk, parent, rows, old(store), ks, accepted);
        if a.Err? {
          r := Err(a.error);
          return;
        }
        ks := ks + [a.value];
        i := i + 1;
      }
      r := Ok(ks);
    }

    /** One round of that loop: `db.add` and flush of the next row. */
    method AddNext(child: Model, fk: Field, parent: int, rows: seq<Row>, ghost s0: Store, ks: seq<int>, ghost accepted: bool)
      returns (r: Result<int>)
      requires Valid() && Grown(s0, store, child, fk, parent, rows, ks) && |ks| < |rows|
      requires accepted ==> RunFits(child, fk, rows) && RunAccepted(s0, child, fk, parent, rows)
      modifies this
      ensures Valid()
      ensures committed == old(committed) && open == old(open)
      ensures r.Ok? ==> Grown(s0, store, child, fk, parent, rows, ks + [r.value])
      ensures r.Err? ==> r.error == InvalidKeyword || r.error.IntegrityError?
      ensures accepted && Ahead(old(store), old(nextId)) ==> r.Ok? && Ahead(store, nextId)
    {
      ghost var before := store;
      RunFitsAt(child, fk, rows, |ks|);
      RunNextOk(s0, store, child, fk, parent, rows, ks, nextId);
      r := Add(child, rows[|ks|][fk := VInt(parent)]);
      if r.Ok? {
        GrownStep(s0, before, store, child, fk, parent, rows, ks, r.value);
      }
    }

    /** The part of a flush that writes replaced lists (`attr.clear(); attr.extend(rows)` on
        each relationship of `lists`): per list, the old members of row `k` go and one new member
        per entry is inserted. A failed insert rolls the transaction back. */
    method ReplaceMembers(m: Model, k: int, lists: map<Field, seq<Row>>) returns (r: Outcome)
      requires Valid() && lists.Keys <= ListRelations(m)
      modifies this
      ensures Valid()
      ensures committed == old(committed) && open == old(open)
      ensures r.Failed? ==> store == old(committed)
      ensures r.Failed? ==> r.error == InvalidKeyword || r.error.IntegrityError?
      ensures r.Done? ==> Processed(old(store), store, m, k, lists, lists.Keys)
      ensures lists == map[] ==> r.Done? && store == old(store) && nextId == old(nextId)
      ensures ListsAccepted(old(store), m, k, lists) && Ahead(old(store), old(nextId)) ==> r.Done? && Ahead(store, nextId)
    {
      ghost var accepted := ListsAccepted(store, m, k, lists) && Ahead(store, nextId);
      ProcessedNothing(store, m, k, lists);
      r := ReplaceFrom(m, k, lists, store, {}, accepted);
    }

    /** The lists of `lists` not in `done`, once those in `done` are relinked. */
    method ReplaceFrom(m: Model, k: int, lists: map<Field, seq<Row>>, ghost s0: Store, done: set<Field>, ghost accepted: bool)
      returns (r: Outcome)
      requires Valid() && done <= lists.Keys <= ListRelations(m)
      requires Processed(s0, store, m, k, lists, done)
      requires accepted ==> ListsAccepted(s0, m, k, lists) && Ahead(store, nextId)
      modifies this
      ensures Valid()
      ensures committed == old(committed) && open == old(open)
      ensures r.Failed? ==> store == old(committed)
      ensures r.Failed? ==> r.error == InvalidKeyword || r.error.IntegrityError?
      ensures r.Done? ==> Processed(s0, store, m, k, lists, lists.Keys)
      ensures done == lists.Keys ==> r.Done? && store == old(store) && nextId == old(nextId)
      ensures accepted ==> r.Done? && Ahead(store, nextId)
      decreases lists.Keys - done
    {
      if done == lists.Keys {
        return Done;
      }
      var rel :| rel in lists.Keys - done;
      r := ReplaceList(m, k, lists, s0, done, rel, accepted);
      if r.Failed? {
        return;
      }
      r := ReplaceFrom(m, k, lists, s0, done + {rel}, accepted);
    }

    /** One list of that flush: the old members of list `rel` go and the new ones are
        inserted. */
    method ReplaceList(m: Model, k: int, lists: map<Field, seq<Row>>, ghost s0: Store, done: set<Field>, rel: Field,
                       ghost accepted: bool)
      returns (r: Outcome)
      requires Valid() && done <= lists.Keys <= ListRelations(m) && rel in lists && rel !in done
      requires done + {rel} <= lists.Keys
      requires Processed(s0, store, m, k, lists, done)
      requires accepted ==> ListsAccepted(s0, m, k, lists)
      modifies this
      ensures Valid()
      ensures committed == old(committed) && open == old(open)
      ensures r.Failed? ==> store == old(committed)
      ensures r.Failed? ==> r.error == InvalidKeyword || r.error.IntegrityError?
      ensures r.Done? ==> Processed(s0, store, m, k, lists, done + {rel})
      ensures accepted && Ahead(old(store), old(nextId)) ==> r.Done? && Ahead(store, nextId)
    {
      var (child, fk) := ChildOf(m, rel);
      ChildOfDistinct(m, rel, rel);
      ghost var before := store;
      RemoveChildren(child, fk, k);
      ghost var dropped := store;
      DroppedAccepts(s0, before, dropped, m, k, lists, done, rel, nextId);
      var a := AddChildren(child, fk, k, lists[rel]);
      if a.Err? {
        Rollback();
        return Failed(a.error);
      }
      ProcessedStep(s0, before, dropped, store, m, k, lists, done, rel, a.value);
      r := Done;
    }

    /** `db.execute(update(...))`. */
    method Execute(m: Model, ks: set<int>, values: Row) returns (r: Outcome)
      requires Valid()
      modifies this
      ensures Valid()
      ensures var u := UpdateWhere(old(store), m, ks, values);
        && (u.Ok? ==> store == u.value && r == Done)
        && (u.Err? ==> r == Failed(u.error))
        && (u.Err? && u.error.IntegrityError? ==> store == old(committed))
        && (u.Err? && !u.error.IntegrityError? ==> store == old(store))
      ensures committed == old(committed) && nextId == old(nextId) && open == old(open)
    {
      var u := UpdateWhere(store, m, ks, values);
      if u.Ok? {
        store := u.value;
        r := Done;
      } else {
        if u.error.IntegrityError? {
          store := committed;
        }
        r := Failed(u.error);
      }
    }

    method Commit()
      requires Valid()
      modifies this
      ensures Valid()
      ensures committed == old(store) && store == old(store)
      ensures nextId == old(nextId) && open == old(open)
    {
      committed := store;
    }

    method Rollback()
      requires Valid()
      modifies this
      ensures Valid()
      ensures store == old(committed) && committed == old(committed)
      ensures nextId == old(nextId) && open == old(open)
    {
      store := committed;
    }

    /** `db.close()`: what was not committed is rolled back and the session is released. */
    method Close()
      requires Valid()
      modifies this
      ensures Valid()
      ensures store == old(committed) && committed == old(committed) && !open
      ensures nextId == old(nextId)
    {
      store := committed;
      open := false;
    }
  }
}
