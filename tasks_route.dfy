/** `GET` and `POST` of `/api/tasks` (src/app/api/tasks/route.ts). Both
    authenticate first; the request body is a decoded JSON value. */
module TasksRoute {
  import opened Wrappers
  import opened TaskSchema
  import opened Db
  import opened Http
  import opened Middleware

  /** `GET`: the caller's tasks, newest first, without `userId`. Reads the
      store and changes nothing. */
  method Get(db: Store, header: Option<string>, verify: string -> Option<Payload>) returns (resp: Response)
    ensures Authenticate(header, verify).error.Some? ==> resp == Authenticate(header, verify).error.value
    ensures Authenticate(header, verify).user.Some? ==>
      && resp.status == 200 && resp.body.TaskListBody?
      && IsOwnerListing(resp.body.tasks, db.tasks, Authenticate(header, verify).user.value.userId)
  {
    var auth := Authenticate(header, verify);
    if auth.error.Some? {
      return auth.error.value;
    }
    var tasks := FindManyByOwner(db.tasks, auth.user.value.userId);
    resp := Response(200, TaskListBody(tasks));
  }

  /** `POST`: validate with `createTaskSchema`, then insert one row owned by
      the caller, status defaulting to `pending`. `now` is the store's clock. */
  method Post(db: Store, header: Option<string>, verify: string -> Option<Payload>, body: TaskBody, now: int)
    returns (resp: Response)
    requires db.Valid()
    modifies db`tasks, db`nextTaskId
    ensures db.Valid() && db.users == old(db.users)
    ensures Authenticate(header, verify).error.Some? ==>
      && resp == Authenticate(header, verify).error.value
      && db.tasks == old(db.tasks) && db.nextTaskId == old(db.nextTaskId)
    ensures Authenticate(header, verify).user.Some? && ParseCreate(body).None? ==>
      resp == InvalidData && db.tasks == old(db.tasks) && db.nextTaskId == old(db.nextTaskId)
    ensures Authenticate(header, verify).user.Some? && ParseCreate(body).Some? ==>
      var input := ParseCreate(body).value;
      var row := TaskRow(old(db.nextTaskId), Authenticate(header, verify).user.value.userId,
                         input.title, input.description, input.status.GetOr(Pending), now, now);
      && db.tasks == old(db.tasks) + [row]
      && db.nextTaskId == old(db.nextTaskId) + 1
      && resp == Response(201, TaskBody(ToView(row)))
  {
    var auth := Authenticate(header, verify);
    if auth.error.Some? {
      return auth.error.value;
    }
    var parsed := ParseCreate(body);
    if parsed.None? {
      return InvalidData;
    }
    var input := parsed.value;
    var row := db.CreateTask(auth.user.value.userId, input.title, input.description,
                             input.status.GetOr(Pending), now);
    resp := Response(201, TaskBody(ToView(row)));
  }
}
