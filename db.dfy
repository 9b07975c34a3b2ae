/** The two tables the route handlers read and write through Prisma (`@/lib/db`,
    whose schema is not part of this model), and the store that owns them.
    Only what the handlers' `where`, `orderBy`, `select` and `data` arguments
    say is interpreted; ids and timestamps are values the store supplies. */
module Db {
  import opened Wrappers
  import opened TaskSchema

  datatype User = User(id: nat, name: string, email: string, password: string)

  datatype TaskRow = TaskRow(id: nat, userId: int, title: string, description: Option<string>,
                             status: Status, createdAt: int, updatedAt: int)

  /** The task fields the handlers `select`: everything but `userId`. */
  datatype TaskView = TaskView(id: nat, title: string, description: Option<string>,
                               status: Status, createdAt: int, updatedAt: int)

  /** The user fields the handlers return: everything but `password`. */
  datatype PublicUser = PublicUser(id: nat, name: string, email: string)

  function ToView(t: TaskRow): TaskView {
    TaskView(t.id, t.title, t.description, t.status, t.createdAt, t.updatedAt)
  }

  function ToPublic(u: User): PublicUser {
    PublicUser(u.id, u.name, u.email)
  }

  predicate EmailsUnique(users: seq<User>) {
    forall i, j :: 0 <= i < j < |users| ==> users[i].email != users[j].email
  }

  /** `prisma.user.findUnique({ where: { email } })`. */
  function FindByEmail(users: seq<User>, email: string): (r: Option<User>)
    ensures r.Some? ==> r.value in users && r.value.email == email
    ensures r.None? <==> forall u :: u in users ==> u.email != email
  {
    if users == [] then None
    else if users[0].email == email then Some(users[0])
    else FindByEmail(users[1..], email)
  }

  /** With unique emails, looking a user up by their email finds exactly that user. */
  lemma {:induction false} FindByEmailFinds(users: seq<User>, u: User)
    requires EmailsUnique(users) && u in users
    ensures FindByEmail(users, u.email) == Some(u)
  {
    if users[0] != u {
      assert users[0].email != u.email by {
        var k :| 0 <= k < |users| && users[k] == u;
      }
      assert EmailsUnique(users[1..]) by {
        forall i, j | 0 <= i < j < |users[1..]| ensures users[1..][i].email != users[1..][j].email {
          assert users[1..][i] == users[i + 1] && users[1..][j] == users[j + 1];
        }
      }
      FindByEmailFinds(users[1..], u);
    }
  }

  /** `where: { userId }`: the rows owned by `uid`, in table order. */
  function WhereOwner(rows: seq<TaskRow>, uid: int): (r: seq<TaskRow>)
    ensures forall t :: t in r <==> t in rows && t.userId == uid
  {
    if rows == [] then []
    else if rows[0].userId == uid then [rows[0]] + WhereOwner(rows[1..], uid)
    else WhereOwner(rows[1..], uid)
  }

  /** The `select` projection applied to each row. */
  function SelectViews(rows: seq<TaskRow>): (r: seq<TaskView>)
    ensures |r| == |rows| && forall i :: 0 <= i < |rows| ==> r[i] == ToView(rows[i])
  {
    if rows == [] then [] else [ToView(rows[0])] + SelectViews(rows[1..])
  }

  /** `orderBy: { createdAt: "desc" }`: creation times never increase along the list. */
  predicate NewestFirst(vs: seq<TaskView>) {
    forall i, j :: 0 <= i < j < |vs| ==> vs[i].createdAt >= vs[j].createdAt
  }

  /** What `findMany({ where: { userId: uid }, orderBy: { createdAt: "desc" }, select })`
      may return: the projections of the owner's rows, each exactly as often as it
      occurs, newest first. Ties between equal creation times may come in any order. */
  predicate IsOwnerListing(vs: seq<TaskView>, rows: seq<TaskRow>, uid: int) {
    NewestFirst(vs) && multiset(vs) == multiset(SelectViews(WhereOwner(rows, uid)))
  }

  /** Inserts `v` into a newest-first list ahead of the first element that is not newer. */
  function InsertNewestFirst(v: TaskView, vs: seq<TaskView>): (r: seq<TaskView>)
    requires NewestFirst(vs)
    ensures NewestFirst(r) && multiset(r) == multiset(vs) + multiset{v}
  {
    if vs == [] || v.createdAt >= vs[0].createdAt then [v] + vs
    else
      var rest := InsertNewestFirst(v, vs[1..]);
      assert vs == [vs[0]] + vs[1..];
      HeadBoundsInsertion(vs, v, rest);
      PrependNewest(vs[0], rest);
      [vs[0]] + rest
  }

  /** The head of a newest-first list is no older than anything inserted
      into its tail after an element older than it. */
  lemma HeadBoundsInsertion(vs: seq<TaskView>, v: TaskView, rest: seq<TaskView>)
    requires NewestFirst(vs) && vs != [] && v.createdAt < vs[0].createdAt
    requires multiset(rest) == multiset(vs[1..]) + multiset{v}
    ensures forall i :: 0 <= i < |rest| ==> vs[0].createdAt >= rest[i].createdAt
  {
    forall i | 0 <= i < |rest| ensures vs[0].createdAt >= rest[i].createdAt {
      assert rest[i] in multiset(rest);
      if rest[i] != v {
        var k :| 0 <= k < |vs[1..]| && vs[1..][k] == rest[i];
        assert vs[k + 1] == rest[i];
      }
    }
  }

  /** An element no older than anything in a newest-first list may head it. */
  lemma PrependNewest(x: TaskView, rest: seq<TaskView>)
    requires NewestFirst(rest)
    requires forall i :: 0 <= i < |rest| ==> x.createdAt >= rest[i].createdAt
    ensures NewestFirst([x] + rest)
  {
    var r := [x] + rest;
    forall i, j | 0 <= i < j < |r| ensures r[i].createdAt >= r[j].createdAt {
      assert r[j] == rest[j - 1];
      if i > 0 { assert r[i] == rest[i - 1]; }
    }
  }

  /** One ordering the store may produce: an insertion sort, which keeps ties in
      table order. The handlers' contracts do not depend on this choice. */
  function OrderNewestFirst(vs: seq<TaskView>): (r: seq<TaskView>)
    ensures NewestFirst(r) && multiset(r) == multiset(vs)
  {
    if vs == [] then []
    else
      assert vs == [vs[0]] + vs[1..];
      InsertNewestFirst(vs[0], OrderNewestFirst(vs[1..]))
  }

  /** The store's answer to the task listing query. */
  function FindManyByOwner(rows: seq<TaskRow>, uid: int): (r: seq<TaskView>)
    ensures IsOwnerListing(r, rows, uid)
  {
    OrderNewestFirst(SelectViews(WhereOwner(rows, uid)))
  }

  /** A listing holds the projection of every row the owner has and of no other row. */
  lemma ListingExactlyOwned(vs: seq<TaskView>, rows: seq<TaskRow>, uid: int, v: TaskView)
    requires IsOwnerListing(vs, rows, uid)
    ensures v in vs <==> exists t :: t in rows && t.userId == uid && ToView(t) == v
  {
    var owned := WhereOwner(rows, uid);
    assert v in vs <==> v in SelectViews(owned) by {
      assert v in vs <==> v in multiset(vs);
    }
    if v in SelectViews(owned) {
      var i :| 0 <= i < |owned| && SelectViews(owned)[i] == v;
      assert owned[i] in owned;
    }
    if exists t :: t in rows && t.userId == uid && ToView(t) == v {
      var t :| t in rows && t.userId == uid && ToView(t) == v;
      assert t in owned;
      var i :| 0 <= i < |owned| && owned[i] == t;
      assert SelectViews(owned)[i] == v;
    }
  }

  /** Another user's task never shows up in a listing: a task's projection
      keeps its id, and ids are unique in the table. */
  lemma OthersTasksHidden(vs: seq<TaskView>, rows: seq<TaskRow>, uid: int, t: TaskRow)
    requires IsOwnerListing(vs, rows, uid)
    requires forall i, j :: 0 <= i < j < |rows| ==> rows[i].id != rows[j].id
    requires t in rows && t.userId != uid
    ensures ToView(t) !in vs
  {
    if ToView(t) in vs {
      ListingExactlyOwned(vs, rows, uid, ToView(t));
      var t' :| t' in rows && t'.userId == uid && ToView(t') == ToView(t);
      var i :| 0 <= i < |rows| && rows[i] == t;
      assert false;
    }
  }

  /** A task strictly newer than every other task in a listing comes first. */
  lemma NewestComesFirst(vs: seq<TaskView>, v: TaskView)
    requires NewestFirst(vs) && v in vs
    requires forall w :: w in vs && w != v ==> w.createdAt < v.createdAt
    ensures vs[0] == v
  {
    var k :| 0 <= k < |vs| && vs[k] == v;
    if k > 0 {
      assert vs[0].createdAt >= vs[k].createdAt;
    }
  }

  /** The database: the user table, the task table and the auto-increment
      counters that supply new ids. */
  class Store {
    var users: seq<User>
    var tasks: seq<TaskRow>
    var nextUserId: nat
    var nextTaskId: nat

    /** The table constraints: `email` is unique, ids are unique and below the
        next id to be handed out. */
    ghost predicate Valid()
      reads this
    {
      && EmailsUnique(users)
      && (forall i :: 0 <= i < |users| ==> users[i].id < nextUserId)
      && (forall i, j :: 0 <= i < j < |users| ==> users[i].id != users[j].id)
      && (forall i :: 0 <= i < |tasks| ==> tasks[i].id < nextTaskId)
      && (forall i, j :: 0 <= i < j < |tasks| ==> tasks[i].id != tasks[j].id)
    }

    /** An empty database; auto-increment ids start at 1. */
    constructor ()
      ensures Valid() && users == [] && tasks == []
      ensures nextUserId == 1 && nextTaskId == 1
    {
      users, tasks := [], [];
      nextUserId, nextTaskId := 1, 1;
    }

    /** `prisma.user.create`: the unique constraint on `email` makes it fail
        (`None`, a thrown error in Prisma) when the email is taken; otherwise one
        row with the next id is appended. */
    method CreateUser(name: string, email: string, password: string) returns (r: Option<User>)
      requires Valid()
      modifies this`users, this`nextUserId
      ensures Valid()
      ensures FindByEmail(old(users), email).Some? ==> r.None? && users == old(users) && nextUserId == old(nextUserId)
      ensures FindByEmail(old(users), email).None? ==>
        && r == Some(User(old(nextUserId), name, email, password))
        && users == old(users) + [r.value]
        && nextUserId == old(nextUserId) + 1
    {
      if FindByEmail(users, email).Some? {
        return None;
      }
      var u := User(nextUserId, name, email, password);
      users := users + [u];
      nextUserId := nextUserId + 1;
      r := Some(u);
    }

    /** `prisma.task.create`: appends one row with the next id, creation and
        update times set to `now`. */
    method CreateTask(userId: int, title: string, description: Option<string>, status: Status, now: int)
      returns (t: TaskRow)
      requires Valid()
      modifies this`tasks, this`nextTaskId
      ensures Valid()
      ensures t == TaskRow(old(nextTaskId), userId, title, description, status, now, now)
      ensures tasks == old(tasks) + [t] && nextTaskId == old(nextTaskId) + 1
    {
      t := TaskRow(nextTaskId, userId, title, description, status, now, now);
      tasks := tasks + [t];
      nextTaskId := nextTaskId + 1;
    }
  }
}
