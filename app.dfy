/** The application wiring of src/server/app.py: the operation ids FastAPI gives the routes, the
    middleware that ends every request's session, and the bootstrap of the "admin" user at
    startup. */
module App {
  import opened Common
  import opened Models
  import opened Query
  import opened Db
  import opened Users

  // ---------------------------------------------------------------- operation ids

  /** What `custom_generate_unique_id` reads of a route: the tags it carries (the router's and
      its own) and the name of its handler. */
  datatype Route = Route(tags: seq<string>, name: string)

  /** `custom_generate_unique_id`: the first tag, a dash, then the handler's name; `tags[0]` on a
      route without tags (every route of the recipes and grocery-lists routers) raises
      IndexError. */
  function UniqueId(route: Route): (r: Result<string>)
    ensures r.Err? <==> route.tags == []
    ensures r.Err? ==> r.error == IndexError
    ensures r.Ok? ==> var tag := route.tags[0];
      && |r.value| == |tag| + 1 + |route.name|
      && r.value[..|tag|] == tag && r.value[|tag|] == '-' && r.value[|tag| + 1..] == route.name
  {
    if route.tags == [] then Err(IndexError) else Ok(route.tags[0] + "-" + route.name)
  }

  /** With first tags free of dashes (as every tag of the application is), the operation id gives
      back the first tag and the handler's name, so two routes share an id only when they share
      both. */
  lemma UniqueIdDetermines(a: Route, b: Route)
    requires a.tags != [] && b.tags != [] && '-' !in a.tags[0] && '-' !in b.tags[0]
    requires UniqueId(a) == UniqueId(b)
    ensures a.tags[0] == b.tags[0] && a.name == b.name
  {
  }

  // ---------------------------------------------------------------- the session middleware

  /** What `call_next` ends with: a response with its status code, or an exception. */
  datatype Reply = Responded(status: int) | Raised(error: Error)

  /** The reply a handler's result becomes: its declared status on success, the status of an
      HTTPException, any other error raised through the middleware. */
  function ReplyOf<T>(r: Result<T>, okStatus: int): (reply: Reply)
    ensures reply.Raised? <==> r.Err? && !r.error.HttpError?
    ensures reply.Raised? ==> reply.error == r.error
    ensures r.Ok? ==> reply == Responded(okStatus)
    ensures r.Err? && r.error.HttpError? ==> reply == Responded(r.error.status)
  {
    match r
    case Ok(_) => Responded(okStatus)
    case Err(e) => if e.HttpError? then Responded(e.status) else Raised(e)
  }

  /** The middleware keeps the handler's work exactly when the response status is below 300. */
  predicate Commits(reply: Reply) {
    reply.Responded? && reply.status < 300
  }

  /** A handler whose success status is below 300 and whose HTTP errors are not gets its work
      committed exactly when it succeeds. */
  lemma CommitsOnSuccess<T>(r: Result<T>, okStatus: int)
    requires okStatus < 300
    requires r.Err? && r.error.HttpError? ==> r.error.status >= 300
    ensures Commits(ReplyOf(r, okStatus)) <==> r.Ok?
  {
  }

  /** `db_session_middleware` once `call_next` has run the handler on the request's session `db`:
      a response below 300 is committed, any other response or an exception rolls the
      transaction back, and the session is always closed. The reply (the exception re-raised)
      goes back unchanged. */
  method SessionMiddleware(db: Session, reply: Reply) returns (r: Reply)
    requires db.Valid() && db.open
    modifies db
    ensures r == reply
    ensures db.Valid() && !db.open && db.store == db.committed
    ensures Commits(reply) ==> db.committed == old(db.store)
    ensures !Commits(reply) ==> db.committed == old(db.committed)
  {
    if Commits(reply) {
      db.Commit();
    } else {
      db.Rollback();
    }
    db.Close();
    r := reply;
  }

  // ---------------------------------------------------------------- the bootstrap admin

  /** The database after `setup_bootstrap_admin`: unchanged when a user named "admin" exists,
      otherwise holding a new user "admin" with the role "admin" and the hash of the configured
      password, unless its flush fails. */
  ghost function Bootstrapped(s: Store, next: int, hashed: string): Store {
    if UsersNamed(s, "admin") != {} then s
    else match Insert(s, User, NewUserRow("admin", hashed, "admin"), next)
      case Ok((s', _)) => s'
      case Err(_) => s
  }

  /** `setup_bootstrap_admin` on the committed database `s`, `next` standing for the key the
      sequence draws and `hashed` for `hash_password(CONFIG.bootstrap_admin_password)`. A failed
      flush raises its IntegrityError after the session is closed. */
  method SetupBootstrapAdmin(s: Store, next: int, hashed: string) returns (s': Store, r: Outcome)
    requires Constraints(s)
    ensures Constraints(s')
    ensures s' == Bootstrapped(s, next, hashed)
    ensures UsersNamed(s, "admin") != {} ==> r == Done && s' == s
    ensures UsersNamed(s, "admin") == {} && next !in T(s, User) ==> r == Done
    ensures r.Failed? ==> r.error.IntegrityError? && s' == s
  {
    var db := new Session(s, next);
    UsernameMatch(db.store, "admin");
    AtMostOneNamed(db.store, "admin");
    var found := OneOrNone(db.store, User, {Eq(Username, VStr("admin"))});
    r := Done;
    // `one_or_none` cannot find two admins: user names are unique.
    if found == Ok(None) {
      NewUserFlush(db.store, "admin", hashed, "admin", next);
      var added := db.Add(User, NewUserRow("admin", hashed, "admin"));
      if added.Ok? {
        db.Commit();
      } else {
        r := Failed(added.error);
      }
    }
    db.Close();
    s' := db.committed;
  }

  /** Once the bootstrap has run on a consistent database whose drawn key was free (or which had
      an admin already), running it again changes nothing: the name "admin" is taken. */
  lemma BootstrapIdempotent(s: Store, next: int, hashed: string, next2: int, hashed2: string)
    requires Constraints(s) && (UsersNamed(s, "admin") != {} || next !in T(s, User))
    ensures Bootstrapped(Bootstrapped(s, next, hashed), next2, hashed2) == Bootstrapped(s, next, hashed)
  {
    if UsersNamed(s, "admin") == {} {
      NewUserFlush(s, "admin", hashed, "admin", next);
      InsertedNamed(s, NewUserRow("admin", hashed, "admin"), next, "admin");
    }
  }

  /** A user inserted under a name is registered under it. */
  lemma InsertedNamed(s: Store, data: Row, next: int, username: string)
    requires Insert(s, User, data, next).Ok?
    requires Username in data && data[Username] == VStr(username)
    ensures Insert(s, User, data, next).value.1 in UsersNamed(Insert(s, User, data, next).value.0, username)
  {
    var (s1, k) := Insert(s, User, data, next).value;
    assert Lookup(T(s1, User)[k], Username) == Some(VStr(username));
  }

  /** On a database without an admin, and with the drawn key free, the bootstrap adds exactly one
      user named "admin", under that key, with the role "admin" and the given hash. */
  lemma BootstrapAddsAdmin(s: Store, next: int, hashed: string)
    requires Constraints(s) && UsersNamed(s, "admin") == {} && next !in T(s, User)
    ensures var b := Bootstrapped(s, next, hashed);
      && UsersNamed(b, "admin") == {next}
      && Lookup(T(b, User)[next], Role) == Some(VStr("admin"))
      && StoredHash(T(b, User)[next]) == hashed
  {
    AdminAdded(s, next, hashed);
    AdminRow(s, next, hashed);
  }

  /** The bootstrap's insert succeeds under the drawn key, which then holds the only admin. */
  lemma AdminAdded(s: Store, next: int, hashed: string)
    requires Constraints(s) && UsersNamed(s, "admin") == {} && next !in T(s, User)
    ensures Insert(s, User, NewUserRow("admin", hashed, "admin"), next).Ok?
    ensures Insert(s, User, NewUserRow("admin", hashed, "admin"), next).value.1 == next
    ensures Bootstrapped(s, next, hashed) == Insert(s, User, NewUserRow("admin", hashed, "admin"), next).value.0
    ensures UsersNamed(Bootstrapped(s, next, hashed), "admin") == {next}
  {
    NewUserFlush(s, "admin", hashed, "admin", next);
    InsertedOnlyNamed(s, NewUserRow("admin", hashed, "admin"), next, "admin");
  }

  /** The admin row holds the role "admin" and the given hash. */
  lemma AdminRow(s: Store, next: int, hashed: string)
    requires Insert(s, User, NewUserRow("admin", hashed, "admin"), next).Ok?
    requires Insert(s, User, NewUserRow("admin", hashed, "admin"), next).value.1 == next
    ensures var b := Insert(s, User, NewUserRow("admin", hashed, "admin"), next).value.0;
      && next in T(b, User)
      && Lookup(T(b, User)[next], Role) == Some(VStr("admin"))
      && StoredHash(T(b, User)[next]) == hashed
  {
    var b := Insert(s, User, NewUserRow("admin", hashed, "admin"), next).value.0;
    assert Extends(T(b, User)[next], NewUserRow("admin", hashed, "admin"));
  }

  /** Inserting a user under a name nobody has makes it the only user of that name. */
  lemma InsertedOnlyNamed(s: Store, data: Row, next: int, username: string)
    requires UsersNamed(s, username) == {}
    requires Insert(s, User, data, next).Ok?
    requires Username in data && data[Username] == VStr(username)
    ensures var (s', k) := Insert(s, User, data, next).value;
      UsersNamed(s', username) == {k} && Extends(T(s', User)[k], data)
  {
    var (s', k) := Insert(s, User, data, next).value;
    forall j | j in UsersNamed(s', username) ensures j == k {
    }
    assert Lookup(T(s', User)[k], Username) == Some(VStr(username));
  }

  /** The bootstrap keeps every constraint, every existing user and every other table. */
  lemma BootstrapKeeps(s: Store, next: int, hashed: string)
    requires Constraints(s)
    ensures var b := Bootstrapped(s, next, hashed);
      && Constraints(b)
      && (forall j | j in T(s, User) :: j in T(b, User) && T(b, User)[j] == T(s, User)[j])
      && (forall x: Model | x != User :: T(b, x) == T(s, x))
  {
  }
}
