/**
  The `/api/tasks` routes. Each handler runs after the auth middleware, which
  supplies the caller's user id; each is a pure step from the store to a
  response and a new store.
 */
module TaskRoutes {
  import opened Base
  import opened JsText
  import opened TaskModel
  import opened Store
  import opened Http

  /**
    The fields the handlers destructure from `req.body`. `user` stands for any
    owner a client might try to smuggle in: the handlers never read it.
   */
  datatype TaskBody = TaskBody(text: Option<string>, details: Option<string>,
                               priority: Option<string>, user: Option<Id>)

  const TaskNotFound: Response := Response(404, Msg("Task not found"))
  const NotAuthorized: Response := Response(401, Msg("Not authorized"))
  const TaskRemoved: Response := Response(200, Msg("Task removed"))
  const ServerError: Response := Response(500, Plain("Server Error"))

  /** GET `/`: the caller's tasks, newest first. */
  function List(db: Db, caller: Id): (r: Step)
    ensures r.db == db
    ensures r.resp.status == 200 && r.resp.body.TaskList?
    ensures forall t :: t in r.resp.body.tasks <==> t in db.tasks && t.user == caller
    ensures forall t :: multiset(r.resp.body.tasks)[t]
                        == if t.user == caller then multiset(db.tasks)[t] else 0
    ensures NewestFirst(r.resp.body.tasks)
  {
    var owned := OwnedBy(db.tasks, caller);
    var sorted := SortNewestFirst(owned);
    assert forall t :: t in sorted <==> t in multiset(owned);
    Step(Response(200, TaskList(sorted)), db)
  }

  /** POST `/`: a new task owned by the caller, or a 500 when the schema rejects it. */
  function Create(db: Db, caller: Id, body: TaskBody, now: int): (r: Step)
    ensures r.resp.status == 200 <==> (body.text.Some? && Trim(body.text.value) != ""
                                      && (body.priority.None? || InEnum(body.priority.value)))
    ensures r.resp.status != 200 ==> r == Step(ServerError, db)
    ensures r.resp.status == 200 ==>
              && r.resp.body.OneTask?
              && var t := r.resp.body.task;
              && t.user == caller
              && t.createdAt == now
              && TaskModel.Valid(t)
              && t.id == db.nextId
              && t.text == Trim(body.text.value)
              && t.details == TrimField(body.details)
              && t.priority == (if body.priority.Some? then body.priority.value
                                else PriorityName(DefaultPriority))
    ensures r.resp.status == 200 ==>
              r.db.users == db.users && r.db.tasks == db.tasks + [r.resp.body.task]
              && r.db.nextId == db.nextId + 1
  {
    match NewTask(db.nextId, caller, body.text, body.details, body.priority, now)
    case None => Step(ServerError, db)
    case Some(t) => Step(Response(200, OneTask(t)), db.(tasks := db.tasks + [t], nextId := db.nextId + 1))
  }

  /** The `$set` document built from the request: only the truthy fields. */
  datatype TaskFields = TaskFields(text: Option<string>, details: Option<string>, priority: Option<string>)

  function FieldsOf(body: TaskBody): (f: TaskFields)
    ensures f.text.Some? <==> Truthy(body.text)
    ensures f.details.Some? <==> Truthy(body.details)
    ensures f.priority.Some? <==> Truthy(body.priority)
    ensures f.text.Some? ==> f.text == body.text
    ensures f.details.Some? ==> f.details == body.details
    ensures f.priority.Some? ==> f.priority == body.priority
  {
    TaskFields(if Truthy(body.text) then body.text else None,
               if Truthy(body.details) then body.details else None,
               if Truthy(body.priority) then body.priority else None)
  }

  /**
    `findByIdAndUpdate(id, { $set: fields })`: casting runs the `trim` setters,
    but no validator, so `priority` is written as given.
   */
  function ApplySet(t: Task, f: TaskFields): (r: Task)
    ensures r.id == t.id && r.user == t.user && r.createdAt == t.createdAt
    ensures f.text.None? ==> r.text == t.text
    ensures f.details.None? ==> r.details == t.details
    ensures f.priority.None? ==> r.priority == t.priority
    ensures f.text.Some? ==> r.text == Trim(f.text.value)
    ensures f.details.Some? ==> r.details == Some(Trim(f.details.value))
    ensures f.priority.Some? ==> r.priority == f.priority.value
  {
    t.(text := if f.text.Some? then Trim(f.text.value) else t.text,
       details := if f.details.Some? then Some(Trim(f.details.value)) else t.details,
       priority := if f.priority.Some? then f.priority.value else t.priority)
  }

  /** Applying the same `$set` twice is applying it once: the trimmed values are already trimmed. */
  lemma ApplySetIdempotent(t: Task, f: TaskFields)
    ensures ApplySet(ApplySet(t, f), f) == ApplySet(t, f)
  {
    if f.text.Some? { TrimIdempotent(f.text.value); }
    if f.details.Some? { TrimIdempotent(f.details.value); }
  }

  /** PUT `/:id`: lookup (404), then ownership (401), then the partial update. */
  function Update(db: Db, caller: Id, id: Id, body: TaskBody): (r: Step)
    ensures FindTask(db.tasks, id).None? ==> r == Step(TaskNotFound, db)
    ensures var f := FindTask(db.tasks, id);
            f.Some? && db.tasks[f.value].user != caller ==> r == Step(NotAuthorized, db)
    ensures FindTask(db.tasks, id).Some? && db.tasks[FindTask(db.tasks, id).value].user == caller ==>
              var i := FindTask(db.tasks, id).value;
              && r.db.users == db.users && r.db.nextId == db.nextId
              && |r.db.tasks| == |db.tasks|
              && var old_, new_ := db.tasks[i], r.db.tasks[i];
              && (forall j :: 0 <= j < |db.tasks| && j != i ==> r.db.tasks[j] == db.tasks[j])
              && new_.id == old_.id && new_.user == old_.user && new_.createdAt == old_.createdAt
              && new_.text == (if Truthy(body.text) then Trim(body.text.value) else old_.text)
              && new_.details == (if Truthy(body.details) then Some(Trim(body.details.value)) else old_.details)
              && new_.priority == (if Truthy(body.priority) then body.priority.value else old_.priority)
              && r.resp == Response(200, OneTask(new_))
  {
    match FindTask(db.tasks, id)
    case None => Step(TaskNotFound, db)
    case Some(i) =>
      if db.tasks[i].user != caller then Step(NotAuthorized, db)
      else
        var t := ApplySet(db.tasks[i], FieldsOf(body));
        Step(Response(200, OneTask(t)), db.(tasks := db.tasks[i := t]))
  }

  /** DELETE `/:id`: lookup (404), then ownership (401), then removal. */
  function Delete(db: Db, caller: Id, id: Id): (r: Step)
    ensures FindTask(db.tasks, id).None? ==> r == Step(TaskNotFound, db)
    ensures var f := FindTask(db.tasks, id);
            f.Some? && db.tasks[f.value].user != caller ==> r == Step(NotAuthorized, db)
    ensures FindTask(db.tasks, id).Some? && db.tasks[FindTask(db.tasks, id).value].user == caller ==>
              var i := FindTask(db.tasks, id).value;
              && r.resp == TaskRemoved
              && r.db.users == db.users && r.db.nextId == db.nextId
              && |r.db.tasks| == |db.tasks| - 1
              && (forall j :: 0 <= j < i ==> r.db.tasks[j] == db.tasks[j])
              && (forall j :: i <= j < |r.db.tasks| ==> r.db.tasks[j] == db.tasks[j + 1])
  {
    match FindTask(db.tasks, id)
    case None => Step(TaskNotFound, db)
    case Some(i) =>
      if db.tasks[i].user != caller then Step(NotAuthorized, db)
      else Step(TaskRemoved, db.(tasks := RemoveAt(db.tasks, i)))
  }

  /** The four routes, as the router dispatches them. */
  datatype Request =
    | GetAll
    | Post(body: TaskBody, now: int)
    | Put(id: Id, body: TaskBody)
    | Remove(id: Id)

  /**
    Any task request by `caller` leaves the accounts alone and never adds, removes
    or alters a task owned by anyone else.
   */
  function Handle(db: Db, caller: Id, req: Request): (r: Step)
    ensures r.db.users == db.users
    ensures forall t: Task :: t.user != caller ==> (t in r.db.tasks <==> t in db.tasks)
  {
    match req
    case GetAll => List(db, caller)
    case Post(body, now) => Create(db, caller, body, now)
    case Put(id, body) =>
      UpdateIsolated(db, caller, id, body);
      Update(db, caller, id, body)
    case Remove(id) =>
      DeleteIsolated(db, caller, id);
      Delete(db, caller, id)
  }

  lemma UpdateIsolated(db: Db, caller: Id, id: Id, body: TaskBody)
    ensures var r := Update(db, caller, id, body);
            forall t: Task :: t.user != caller ==> (t in r.db.tasks <==> t in db.tasks)
  {
    var r := Update(db, caller, id, body);
    if r.db != db {
      var i := FindTask(db.tasks, id).value;
      forall t: Task | t.user != caller ensures t in r.db.tasks <==> t in db.tasks {
        if t in r.db.tasks {
          var j :| 0 <= j < |r.db.tasks| && r.db.tasks[j] == t;
          assert j != i;
        }
        if t in db.tasks {
          var j :| 0 <= j < |db.tasks| && db.tasks[j] == t;
          assert j != i && r.db.tasks[j] == t;
        }
      }
    }
  }

  lemma DeleteIsolated(db: Db, caller: Id, id: Id)
    ensures var r := Delete(db, caller, id);
            forall t: Task :: t.user != caller ==> (t in r.db.tasks <==> t in db.tasks)
  {
    var r := Delete(db, caller, id);
    if r.db != db {
      var i := FindTask(db.tasks, id).value;
      forall t: Task | t.user != caller ensures t in r.db.tasks <==> t in db.tasks {
        if t in r.db.tasks {
          var j :| 0 <= j < |r.db.tasks| && r.db.tasks[j] == t;
          if j < i { assert db.tasks[j] == t; } else { assert db.tasks[j + 1] == t; }
        }
        if t in db.tasks {
          var j :| 0 <= j < |db.tasks| && db.tasks[j] == t;
          if j < i { assert r.db.tasks[j] == t; } else { assert j != i && r.db.tasks[j - 1] == t; }
        }
      }
    }
  }
}
