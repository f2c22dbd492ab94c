/** The user routes of src/server/routes/users.py: password authentication and the bearer token,
    registration, the admin-only listing and the guarded update of a password or a role. Password
    hashing and checking (bcrypt) and token encoding (JWT) are parameters of the operations that
    use them. */
module Users {
  import opened Common
  import opened Models
  import opened ModelFacts
  import opened TableEdits
  import opened Query
  import opened Db
  import opened Storage
  import opened Routes

  // ---------------------------------------------------------------- authentication

  /** The users registered under `username` (at most one, `username` being unique). */
  function UsersNamed(s: Store, username: string): set<int> {
    set k | k in T(s, User) && Lookup(T(s, User)[k], Username) == Some(VStr(username))
  }

  /** The stored password hash of a user row. */
  function StoredHash(row: Row): string {
    match Lookup(row, HashedPassword)
    case Some(VStr(h)) => h
    case _ => ""
  }

  /** `username` is registered and `password` checks against its stored hash. */
  predicate Authenticates(s: Store, username: string, password: string, verify: (string, string) -> bool) {
    exists k | k in UsersNamed(s, username) :: verify(password, StoredHash(T(s, User)[k]))
  }

  /** `select(User).filter_by(username=username)` reaches the users registered under that name. */
  lemma UsernameMatch(s: Store, username: string)
    ensures Matching(s, User, {Eq(Username, VStr(username))}) == UsersNamed(s, username)
  {
    forall k | k in T(s, User)
      ensures Satisfies(s, User, T(s, User)[k], {Eq(Username, VStr(username))}) <==>
        Lookup(T(s, User)[k], Username) == Some(VStr(username))
    {
      assert Holds(s, User, T(s, User)[k], Eq(Username, VStr(username))) <==>
        Lookup(T(s, User)[k], Username) == Some(VStr(username));
    }
  }

  /** No two users share a name. */
  lemma AtMostOneNamed(s: Store, username: string)
    requires Constraints(s)
    ensures |UsersNamed(s, username)| <= 1
  {
    var named := UsersNamed(s, username);
    assert (forall x :: x !in named) ==> named == {};
    if k :| k in named {
      forall j | j in named ensures j == k {
        UsernameIdentifies(s, j, k);
      }
      assert named <= {k};
      assert named == {k};
    }
  }

  /** `authenticate_user`: the user registered under `username` when `password` checks against
      its hash; otherwise an AuthenticationException naming which of the two went wrong. */
  method AuthenticateUser(db: Session, username: string, password: string, verify: (string, string) -> bool)
    returns (r: Result<int>)
    requires db.Valid()
    ensures r.Ok? <==> Authenticates(db.store, username, password, verify)
    ensures r.Ok? ==> r.value in UsersNamed(db.store, username) && verify(password, StoredHash(T(db.store, User)[r.value]))
    ensures UsersNamed(db.store, username) == {} ==>
      r == Err(AuthenticationFailed("User '" + username + "' doesn't exist"))
    ensures UsersNamed(db.store, username) != {} && r.Err? ==>
      r == Err(AuthenticationFailed("Incorrect password for user '" + username + "'"))
  {
    UsernameMatch(db.store, username);
    AtMostOneNamed(db.store, username);
    var found := OneOrNone(db.store, User, {Eq(Username, VStr(username))});
    r :=
      if found.Err? then Err(MultipleResultsFound)
      else if found.value.None? then Err(AuthenticationFailed("User '" + username + "' doesn't exist"))
      else if !verify(password, StoredHash(T(db.store, User)[found.value.value])) then
        Err(AuthenticationFailed("Incorrect password for user '" + username + "'"))
      else Ok(found.value.value);
    if found.Ok? && found.value.Some? {
      OnlyNamed(db.store, username, password, verify, found.value.value);
    }
  }

  /** With exactly one user under `username`, the name authenticates when the password checks
      against that user's hash. */
  lemma OnlyNamed(s: Store, username: string, password: string, verify: (string, string) -> bool, k: int)
    requires UsersNamed(s, username) == {k}
    ensures k in T(s, User)
    ensures Authenticates(s, username, password, verify) <==> verify(password, StoredHash(T(s, User)[k]))
  {
    assert k in UsersNamed(s, username);
  }

  /** The body of the `/token` response. */
  datatype Token = Token(accessToken: string, tokenType: string)

  /** `create_token`: a bearer token whose claims name the user and expire `expireMinutes` after
      `now` (seconds); 401 whatever the reason the credentials were refused. `encode` stands for
      `jwt.encode` under the configured key and algorithm. */
  method CreateToken(db: Session, username: string, password: string, verify: (string, string) -> bool,
                     encode: (string, int) -> string, now: int, expireMinutes: int)
    returns (r: Result<Token>)
    requires db.Valid()
    ensures r.Ok? <==> Authenticates(db.store, username, password, verify)
    ensures r.Err? ==> r.error == HttpError(401, "Incorrect username or password")
    ensures r.Ok? ==> r.value.tokenType == "bearer" && r.value.accessToken == encode(username, now + 60 * expireMinutes)
  {
    var auth := AuthenticateUser(db, username, password, verify);
    if auth.Err? {
      return Err(HttpError(401, "Incorrect username or password"));
    }
    var token := encode(username, now + 60 * expireMinutes);
    r := Ok(Token(token, "bearer"));
  }

  // ---------------------------------------------------------------- registration

  /** The row of a new user: the hash of the password, never the password, and the role given.
      `create_user` gives the role "user" whatever the request. */
  function NewUserRow(username: string, hashed: string, role: string): (row: Row)
    ensures row.Keys == {Username, HashedPassword, Role} && row.Keys <= Columns(User)
    ensures row[Username] == VStr(username) && row[HashedPassword] == VStr(hashed) && row[Role] == VStr(role)
  {
    map[Username := VStr(username), HashedPassword := VStr(hashed), Role := VStr(role)]
  }

  /** The `except IntegrityError` clause of `create_user`: a unique-key clash ("already exists")
      becomes a 400, any other error is raised again. */
  function RegistrationError(e: Error, username: string): (r: Error)
    ensures e == IntegrityError(true) ==> r == HttpError(400, "Username '" + username + "' already taken")
    ensures e != IntegrityError(true) ==> r == e
  {
    if e == IntegrityError(true) then HttpError(400, "Username '" + username + "' already taken") else e
  }

  /** The new user row is shaped, and so is the user table once it holds it. */
  lemma NewUserShaped(s: Store, username: string, hashed: string, role: string, next: int)
    requires Constraints(s)
    ensures Build(User, NewUserRow(username, hashed, role), next).Ok?
    ensures var row := Build(User, NewUserRow(username, hashed, role), next).value;
      && KeyOf(User, row, next) == next
      && Lookup(row, Username) == Some(VStr(username))
      && TableShaped(Staged(s, User, next, row), User)
  {
    TablesShaped(s, User);
    NewUserRowShaped(username, hashed, role, next);
    var row := Build(User, NewUserRow(username, hashed, role), next).value;
    RowPutShaped(T(s, User), User, next, row);
    assert T(Staged(s, User, next, row), User) == T(s, User)[next := row];
  }

  /** The new user row gets the drawn key as its `id` and holds no NULL where none is allowed. */
  lemma NewUserRowShaped(username: string, hashed: string, role: string, next: int)
    ensures Build(User, NewUserRow(username, hashed, role), next).Ok?
    ensures var row := Build(User, NewUserRow(username, hashed, role), next).value;
      && Shaped(User, row) && row[Id] == VInt(next)
      && KeyOf(User, row, next) == next
      && Lookup(row, Username) == Some(VStr(username))
  {
    var row := Build(User, NewUserRow(username, hashed, role), next).value;
    assert row[Id] == VInt(next);
  }

  /** Changing only the user table, without losing a key, keeps every other table consistent. */
  lemma OtherTablesOk(s: Store, r: Store)
    requires Constraints(s)
    requires forall y: Model | y != User :: T(r, y) == T(s, y)
    requires T(s, User).Keys <= T(r, User).Keys
    ensures TableOk(r, Recipe) && TableOk(r, Tag) && TableOk(r, RecipeTagAssoc) && TableOk(r, Ingredient)
    ensures TableOk(r, Step) && TableOk(r, MealPlanItem) && TableOk(r, GroceryList) && TableOk(r, GroceryListItem)
  {
    KeptTableOk(s, r, User, Recipe);
    KeptTableOk(s, r, User, Tag);
    KeptTableOk(s, r, User, RecipeTagAssoc);
    KeptTableOk(s, r, User, Ingredient);
    KeptTableOk(s, r, User, Step);
    KeptTableOk(s, r, User, MealPlanItem);
    KeptTableOk(s, r, User, GroceryList);
    KeptTableOk(s, r, User, GroceryListItem);
  }

  /** A name already registered makes the users table hold two rows with that name. */
  lemma NameClash(s: Store, r: Store, username: string, k: int)
    requires UsersNamed(s, username) != {} && k !in T(s, User)
    requires forall j | j in T(s, User) :: j in T(r, User) && T(r, User)[j] == T(s, User)[j]
    requires k in T(r, User) && Lookup(T(r, User)[k], Username) == Some(VStr(username))
    ensures !UniqueOn(T(r, User), Username)
  {
    assert (forall x :: x !in UsersNamed(s, username)) ==> UsersNamed(s, username) == {};
    var j :| j in UsersNamed(s, username);
    assert T(r, User)[j][Username] == T(r, User)[k][Username];
  }

  /** A name not yet registered stays unique once its row is added. */
  lemma NameFresh(s: Store, r: Store, username: string, k: int)
    requires UniqueOk(s) && UsersNamed(s, username) == {} && k !in T(s, User)
    requires T(r, User).Keys == T(s, User).Keys + {k}
    requires forall j | j in T(s, User) :: T(r, User)[j] == T(s, User)[j]
    requires Lookup(T(r, User)[k], Username) == Some(VStr(username))
    requires T(r, Tag) == T(s, Tag) && T(r, RecipeTagAssoc) == T(s, RecipeTagAssoc)
    ensures UniqueOk(r)
  {
    forall j | j in T(s, User) && Username in T(s, User)[j] ensures T(s, User)[j][Username] != VStr(username) {
      assert j !in UsersNamed(s, username);
    }
  }

  /** The flush of a new user fails exactly on a taken name or a taken key, and then always as a
      unique-key clash. */
  lemma NewUserFlush(s: Store, username: string, hashed: string, role: string, next: int)
    requires Constraints(s)
    ensures var ins := Insert(s, User, NewUserRow(username, hashed, role), next);
      && (ins.Err? ==> ins.error == IntegrityError(true))
      && (UsersNamed(s, username) != {} ==> ins.Err?)
      && (UsersNamed(s, username) == {} && next !in T(s, User) ==> ins.Ok?)
  {
    NewUserShaped(s, username, hashed, role, next);
    var row := Build(User, NewUserRow(username, hashed, role), next).value;
    var candidate := Staged(s, User, next, row);
    if next !in T(s, User) {
      OtherTablesOk(s, candidate);
      if UsersNamed(s, username) == {} {
        NameFresh(s, candidate, username, next);
        assert TableOk(candidate, User);
        assert Constraints(candidate);
      } else {
        NameClash(s, candidate, username, next);
      }
    }
  }

  /** `create_user`: a new user with the role "user" and the hash of the password, flushed but
      left for the request's middleware to commit; 400 when the name (or the drawn key) is taken. */
  method CreateUser(db: Session, username: string, password: string, hash: string -> string) returns (r: Result<int>)
    requires db.Valid()
    modifies db
    ensures db.Valid() && db.committed == old(db.committed)
    ensures r.Ok? ==> RowAdded(T(old(db.store), User), T(db.store, User), r.value, NewUserRow(username, hash(password), "user"))
    ensures r.Ok? ==> forall x: Model | x != User :: T(db.store, x) == T(old(db.store), x)
    ensures r.Err? ==> r.error == HttpError(400, "Username '" + username + "' already taken") && db.store == old(db.committed)
    ensures UsersNamed(old(db.store), username) != {} ==> r.Err?
    ensures UsersNamed(old(db.store), username) == {} && old(db.nextId) !in T(old(db.store), User) ==> r.Ok?
  {
    var data := NewUserRow(username, hash(password), "user");
    NewUserFlush(db.store, username, hash(password), "user", db.nextId);
    var added := db.Add(User, data);
    r := if added.Ok? then added else Err(RegistrationError(added.error, username));
  }

  // ---------------------------------------------------------------- listing

  /** The attributes a user listing may filter on. */
  const ListFields: set<Field> := {Username, Role}

  /** The users holding every parameter given. */
  function UsersListed(s: Store, params: map<Field, Value>): set<int> {
    set k | k in T(s, User) && ParamsHold(T(s, User)[k], params)
  }

  lemma UsersMatch(s: Store, user: Principal, params: map<Field, Value>)
    requires params.Keys <= ListFields && user.role == "admin"
    ensures Matching(s, User, OwnerFilter(user) + {} + EqConds(Given(params))) == UsersListed(s, params)
  {
    forall k {
      ParamsMatch(s, user, User, {}, params, k);
    }
  }

  /** `list_users`: 403 unless the requester is an admin; otherwise every user holding the
      parameters given, in no particular order. */
  method ListUsers(db: Session, user: Principal, params: map<Field, Value>) returns (r: Result<seq<int>>)
    requires params.Keys <= ListFields
    ensures r.Err? <==> user.role != "admin"
    ensures r.Err? ==> r.error == HttpError(403, "Only admins can list users")
    ensures r.Ok? ==> Enumerates(r.value, UsersListed(db.store, params))
  {
    if user.role != "admin" {
      return Err(HttpError(403, "Only admins can list users"));
    }
    var q := SafeQuery(Select, User, user);
    q := FilterBy(q, params);
    UsersMatch(db.store, user, params);
    assert q.conds == OwnerFilter(user) + {} + EqConds(Given(params));
    var ks := Fetch(T(db.store, User), Matching(db.store, User, q.conds), None);
    r := Ok(ks);
  }

  // ---------------------------------------------------------------- update

  /** The fields of a `PUT /users/{id}` request that were set. */
  datatype UserUpdate = UserUpdate(role: Option<string>, password: Option<string>)

  /** The values the UPDATE writes: the role as given, and the hash of the password in place of
      the password. */
  function UpdateValues(data: UserUpdate, hash: string -> string): (v: Row)
    ensures v.Keys <= {Role, HashedPassword}
    ensures Role in v <==> data.role.Some?
    ensures HashedPassword in v <==> data.password.Some?
    ensures data.role.Some? ==> v[Role] == VStr(data.role.value)
    ensures data.password.Some? ==> v[HashedPassword] == VStr(hash(data.password.value))
  {
    var withRole: Row := if data.role.Some? then map[Role := VStr(data.role.value)] else map[];
    if data.password.Some? then withRole[HashedPassword := VStr(hash(data.password.value))] else withRole
  }

  /** Writing a role or a password hash over some users keeps every constraint: neither is NULL,
      and no name or key changes. */
  lemma UserPatchOk(s: Store, ks: set<int>, values: Row)
    requires Constraints(s)
    requires values.Keys <= {Role, HashedPassword} && forall f | f in values :: values[f].VStr?
    ensures UpdateWhere(s, User, ks, values).Ok?
  {
    var r := With(s, User, Patch(T(s, User), ks, values));
    PatchedUsersOk(s, ks, values);
    OtherTablesOk(s, r);
  }

  /** The patched user table is shaped and its names are still unique. */
  lemma PatchedUsersOk(s: Store, ks: set<int>, values: Row)
    requires Constraints(s)
    requires values.Keys <= {Role, HashedPassword} && forall f | f in values :: values[f].VStr?
    ensures TableOk(With(s, User, Patch(T(s, User), ks, values)), User)
    ensures UniqueOk(With(s, User, Patch(T(s, User), ks, values)))
  {
    TablesShaped(s, User);
    assert UniqueOn(T(s, User), Username);
    PatchedShaped(T(s, User), ks, values);
    PatchedNamesUnique(T(s, User), ks, values);
    var r := With(s, User, Patch(T(s, User), ks, values));
    assert T(r, Tag) == T(s, Tag) && T(r, RecipeTagAssoc) == T(s, RecipeTagAssoc);
  }

  /** Writing a role or a password hash keeps each user row's columns, its key and its non-NULL
      values. */
  lemma PatchedShaped(t: Table, ks: set<int>, values: Row)
    requires forall j | j in t :: Shaped(User, t[j]) && t[j][Id] == VInt(j)
    requires values.Keys <= {Role, HashedPassword} && forall f | f in values :: values[f].VStr?
    ensures forall j | j in Patch(t, ks, values) :: Shaped(User, Patch(t, ks, values)[j]) && Patch(t, ks, values)[j][Id] == VInt(j)
  {
    var p := Patch(t, ks, values);
    forall j | j in p ensures Shaped(User, p[j]) && p[j][Id] == VInt(j) {
      assert Shaped(User, t[j]);
    }
  }

  /** Writing anything but the name keeps the names unique. */
  lemma PatchedNamesUnique(t: Table, ks: set<int>, values: Row)
    requires UniqueOn(t, Username) && forall j | j in t :: Username in t[j]
    requires Username !in values
    ensures UniqueOn(Patch(t, ks, values), Username)
  {
    var p := Patch(t, ks, values);
    forall j | j in p ensures Username in p[j] && p[j][Username] == t[j][Username] {
    }
  }

  /** A requester with role "user" sees only its own user row. */
  lemma OwnRowOnly(s: Store, user: Principal, id: int)
    requires Constraints(s) && user.role == "user" && RowVisible(s, user, User, id)
    ensures id == user.id
  {
    TablesShaped(s, User);
  }

  /** A requester with role "user" cannot see any other user's row, so `UpdateUser` answers its
      password change for another user with NoResultFound before the 403 check is reached. */
  lemma OthersOutOfReach(s: Store, user: Principal, id: int)
    requires Constraints(s) && user.role == "user" && id != user.id
    ensures !RowVisible(s, user, User, id)
  {
    TablesShaped(s, User);
  }

  /** `update_user`. A password change needs the target to be the requester (404-like
      NoResultFound when out of reach, 403 otherwise); a role change needs an admin (403). Then
      the UPDATE, restricted by `safe_query`, writes the role and the new hash, and is committed.
      The target of the password check is looked up by `id` (the source's `filter_by(user=id)`
      names no attribute of User). The handler returns nothing. */
  method UpdateUser(db: Session, user: Principal, id: int, data: UserUpdate, hash: string -> string) returns (r: Outcome)
    requires db.Valid()
    requires data.role.Some? || data.password.Some?
    modifies db
    ensures db.Valid()
    ensures data.password.Some? && !RowVisible(old(db.store), user, User, id) ==> r == Failed(NoResultFound)
    ensures data.password.Some? && RowVisible(old(db.store), user, User, id) && user.id != id ==>
      r == Failed(HttpError(403, "Passwords can only be updated for same user as requester"))
    ensures (data.password.None? || (RowVisible(old(db.store), user, User, id) && user.id == id)) && data.role.Some? && user.role != "admin" ==>
      r == Failed(HttpError(403, "Roles can only be updated by admin users"))
    ensures r.Failed? ==> db.store == old(db.store) && db.committed == old(db.committed)
    ensures (data.password.None? || (RowVisible(old(db.store), user, User, id) && user.id == id)) && (data.role.None? || user.role == "admin")
            ==> r.Done?
    ensures r.Done? ==> data.password.None? || id == user.id
    ensures r.Done? ==> data.role.None? || user.role == "admin"
    ensures r.Done? ==>
      T(db.store, User) == Patch(T(old(db.store), User), if RowVisible(old(db.store), user, User, id) then {id} else {}, UpdateValues(data, hash))
    ensures r.Done? ==> forall x: Model | x != User :: T(db.store, x) == T(old(db.store), x)
    ensures r.Done? ==> db.committed == db.store
  {
    if data.password.Some? {
      var target := FindById(db, user, User, id);
      if target.Err? {
        return Failed(target.error);
      }
      if user.id != id {
        return Failed(HttpError(403, "Passwords can only be updated for same user as requester"));
      }
    }
    if data.role.Some? && user.role != "admin" {
      return Failed(HttpError(403, "Roles can only be updated by admin users"));
    }
    r := UpdateVisible(db, user, id, UpdateValues(data, hash));
  }

  /** The UPDATE of `update_user` once its checks pass: `values` are written over user `id` when
      the requester may see it, over no row otherwise, and committed; writing a role or a hash
      cannot break a constraint, so it always succeeds. */
  method UpdateVisible(db: Session, user: Principal, id: int, values: Row) returns (r: Outcome)
    requires db.Valid()
    requires values.Keys <= {Role, HashedPassword} && forall f | f in values :: values[f].VStr?
    modifies db
    ensures db.Valid() && r == Done
    ensures T(db.store, User) == Patch(T(old(db.store), User), if RowVisible(old(db.store), user, User, id) then {id} else {}, values)
    ensures forall x: Model | x != User :: T(db.store, x) == T(old(db.store), x)
    ensures db.committed == db.store
  {
    var q := Where(SafeQuery(Update, User, user), EqConds(ById(id)));
    assert q.conds == Scope(user, ById(id));
    TablesShaped(db.store, User);
    IdScope(db.store, user, User, id);
    var ks := Matching(db.store, User, q.conds);
    UserPatchOk(db.store, ks, values);
    r := db.Execute(User, ks, values);
    db.Commit();
  }

  /** A requester with role "user" can change no other user's row. */
  lemma UpdateStaysOwn(s: Store, user: Principal, id: int, values: Row)
    requires Constraints(s) && user.role == "user"
    ensures var t := Patch(T(s, User), if RowVisible(s, user, User, id) then {id} else {}, values);
      forall j | j in T(s, User) && j != user.id :: t[j] == T(s, User)[j]
  {
    if RowVisible(s, user, User, id) {
      OwnRowOnly(s, user, id);
    }
  }
}
