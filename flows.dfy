/** Requests chained the way a client uses the API: register, log in, list;
    create, then list. The foreign calls enter only through their documented
    promises, stated as preconditions: bcrypt's compare accepts the password a
    hash was made from, and jsonwebtoken's verify gives back what was signed. */
module Flows {
  import opened Wrappers
  import opened TaskSchema
  import opened Db
  import opened Http
  import opened Middleware
  import TasksRoute
  import RegisterRoute
  import LoginRoute

  /** A listing for an owner with no rows is empty. */
  lemma EmptyListing(vs: seq<TaskView>, rows: seq<TaskRow>, uid: int)
    requires IsOwnerListing(vs, rows, uid)
    requires forall t :: t in rows ==> t.userId != uid
    ensures vs == []
  {
    assert WhereOwner(rows, uid) == [];
    assert multiset(vs) == multiset{};
  }

  /** Register, log in with the same credentials, list tasks with the token
      the login returned: 201, 200, and an empty list owned by the new user. */
  method SignUpSignInList(db: Store, name: string, email: string, password: string, hashed: string,
                          compare: (string, string) -> bool, sign: Payload -> string,
                          verify: string -> Option<Payload>)
    returns (registered: Response, loggedIn: Response, listed: Response)
    requires db.Valid()
    requires FindByEmail(db.users, email).None?
    requires forall t :: t in db.tasks ==> t.userId != db.nextUserId
    requires compare(password, hashed)
    requires verify(sign(Payload(db.nextUserId, email))) == Some(Payload(db.nextUserId, email))
    modifies db`users, db`nextUserId
    ensures registered.status == 201 && registered.body.CreatedUserBody? && registered.body.user.email == email
    ensures loggedIn.status == 200 && loggedIn.body.TokenBody? && loggedIn.body.user == registered.body.user
    ensures listed == Response(200, TaskListBody([]))
  {
    ghost var id := db.nextUserId;
    ghost var before := db.users;
    registered := RegisterRoute.Post(db, Some(RegisterRoute.RegisterInput(name, email, password)), hashed, None);
    LoginRoute.LoginAfterRegister(before, User(id, name, email, hashed), password, compare, sign);
    loggedIn := LoginRoute.Post(db.users, Some(LoginRoute.Credentials(email, password)), compare, sign, None);
    BearerRoundTrip(loggedIn.body.token, verify);
    listed := TasksRoute.Get(db, Some(BearerHeader(loggedIn.body.token)), verify);
    EmptyListing(listed.body.tasks, db.tasks, id);
  }

  /** Create a task, then list: when the store's clock has moved past every
      earlier task of the caller, the new task comes first. */
  method CreateThenList(db: Store, header: Option<string>, verify: string -> Option<Payload>,
                        body: TaskBody, now: int)
    returns (created: Response, listed: Response)
    requires db.Valid()
    requires Authenticate(header, verify).user.Some? && ParseCreate(body).Some?
    requires forall t :: t in db.tasks && t.userId == Authenticate(header, verify).user.value.userId ==> t.createdAt < now
    modifies db`tasks, db`nextTaskId
    ensures created.status == 201 && created.body.TaskBody? && listed.status == 200
    ensures listed.body.TaskListBody? && |listed.body.tasks| > 0 && listed.body.tasks[0] == created.body.task
  {
    var uid := Authenticate(header, verify).user.value.userId;
    ghost var before := db.tasks;
    created := TasksRoute.Post(db, header, verify, body, now);
    listed := TasksRoute.Get(db, header, verify);
    var vs, v := listed.body.tasks, created.body.task;
    var row :| row in db.tasks && row == db.tasks[|db.tasks| - 1];
    assert v == ToView(row) && row.userId == uid && row.createdAt == now;
    ListingExactlyOwned(vs, db.tasks, uid, v);
    forall w | w in vs && w != v ensures w.createdAt < v.createdAt {
      ListingExactlyOwned(vs, db.tasks, uid, w);
      var t :| t in db.tasks && t.userId == uid && ToView(t) == w;
      assert t != row;
      assert t in before;
    }
    NewestComesFirst(vs, v);
  }
}
