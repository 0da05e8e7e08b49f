/**
  Properties that relate several handlers or hold across every request: the
  store invariant, the schema constraints, registration followed by login or
  by listing, and what an update can and cannot break.
 */
module Invariants {
  import opened Base
  import opened JsText
  import opened TaskModel
  import opened Store
  import opened Http
  import opened TaskRoutes
  import opened AuthRoutes

  lemma CreateKeepsConsistent(db: Db, caller: Id, body: TaskBody, now: int)
    requires Consistent(db) && caller in UserIds(db.users)
    ensures Consistent(Create(db, caller, body, now).db)
  {
    var made := NewTask(db.nextId, caller, body.text, body.details, body.priority, now);
    if made.Some? {
      AppendKeepsConsistent(db, made.value);
    }
  }

  lemma UpdateKeepsConsistent(db: Db, caller: Id, id: Id, body: TaskBody)
    requires Consistent(db)
    ensures Consistent(Update(db, caller, id, body).db)
  {
    var found := FindTask(db.tasks, id);
    if found.Some? && db.tasks[found.value].user == caller {
      var i := found.value;
      ReplaceKeepsConsistent(db, i, ApplySet(db.tasks[i], FieldsOf(body)));
    }
  }

  lemma DeleteKeepsConsistent(db: Db, caller: Id, id: Id)
    requires Consistent(db)
    ensures Consistent(Delete(db, caller, id).db)
  {
    var found := FindTask(db.tasks, id);
    if found.Some? && db.tasks[found.value].user == caller {
      RemoveKeepsConsistent(db, found.value);
    }
  }

  /** Every task request by a registered caller keeps the store invariant. */
  lemma TaskRequestKeepsConsistent(db: Db, caller: Id, req: Request)
    requires Consistent(db) && caller in UserIds(db.users)
    ensures Consistent(Handle(db, caller, req).db)
  {
    match req
    case GetAll =>
    case Post(body, now) => CreateKeepsConsistent(db, caller, body, now);
    case Put(id, body) => UpdateKeepsConsistent(db, caller, id, body);
    case Remove(id) => DeleteKeepsConsistent(db, caller, id);
  }

  /** An update body the schema's validators would have accepted. */
  predicate AcceptableFields(body: TaskBody) {
    && (Truthy(body.text) ==> Trim(body.text.value) != "")
    && (Truthy(body.priority) ==> InEnum(body.priority.value))
  }

  /** Validators do not run on update, but fields they would accept keep a valid task valid. */
  lemma UpdateKeepsSchema(db: Db, caller: Id, id: Id, body: TaskBody)
    requires AllValid(db.tasks) && AcceptableFields(body)
    ensures AllValid(Update(db, caller, id, body).db.tasks)
  {
    var found := FindTask(db.tasks, id);
    if found.Some? && db.tasks[found.value].user == caller {
      var i := found.value;
      var t := ApplySet(db.tasks[i], FieldsOf(body));
      if Truthy(body.text) { TrimIdempotent(body.text.value); }
      if Truthy(body.details) { TrimIdempotent(body.details.value); }
      assert TaskModel.Valid(t);
      var tasks := db.tasks[i := t];
      forall j | 0 <= j < |tasks| ensures TaskModel.Valid(tasks[j]) {
        if j != i { assert tasks[j] == db.tasks[j]; }
      }
    }
  }

  lemma DeleteKeepsSchema(db: Db, caller: Id, id: Id)
    requires AllValid(db.tasks)
    ensures AllValid(Delete(db, caller, id).db.tasks)
  {
    var found := FindTask(db.tasks, id);
    if found.Some? && db.tasks[found.value].user == caller {
      RemoveKeepsAllValid(db.tasks, found.value);
    }
  }

  lemma CreateKeepsSchema(db: Db, caller: Id, body: TaskBody, now: int)
    requires AllValid(db.tasks)
    ensures AllValid(Create(db, caller, body, now).db.tasks)
  {
    var made := NewTask(db.nextId, caller, body.text, body.details, body.priority, now);
    if made.Some? {
      assert AllValid([made.value]);
      AppendKeepsAllValid(db.tasks, [made.value]);
    }
  }

  /**
    Create and delete keep every stored task within the schema; an update does so
    when its fields are ones the validators would accept.
   */
  lemma TaskRequestKeepsSchema(db: Db, caller: Id, req: Request)
    requires AllValid(db.tasks)
    requires req.Put? ==> AcceptableFields(req.body)
    ensures AllValid(Handle(db, caller, req).db.tasks)
  {
    match req
    case GetAll =>
    case Post(body, now) => CreateKeepsSchema(db, caller, body, now);
    case Put(id, body) => UpdateKeepsSchema(db, caller, id, body);
    case Remove(id) => DeleteKeepsSchema(db, caller, id);
  }

  /** The enum is not enforced on update: an owner can store a priority off the enum. */
  lemma UpdateSkipsPriorityEnum(db: Db, caller: Id, i: nat)
    requires DistinctTaskIds(db.tasks) && i < |db.tasks| && db.tasks[i].user == caller
    ensures var r := Update(db, caller, db.tasks[i].id, TaskBody(None, None, Some("Urgent"), None));
            && r.resp.status == 200
            && r.db.tasks[i].priority == "Urgent"
            && !TaskModel.Valid(r.db.tasks[i])
  {
    FindTaskAt(db.tasks, i);
    assert !InEnum("Urgent");
  }

  /** `required` is not enforced on update: a blank text is trimmed to the empty string and stored. */
  lemma UpdateSkipsTextRequired(db: Db, caller: Id, i: nat)
    requires DistinctTaskIds(db.tasks) && i < |db.tasks| && db.tasks[i].user == caller
    ensures var r := Update(db, caller, db.tasks[i].id, TaskBody(Some("  "), None, None, None));
            && r.resp.status == 200
            && r.db.tasks[i].text == ""
  {
    FindTaskAt(db.tasks, i);
    TrimEmptyIffBlank("  ");
  }

  /** Repeating an update changes nothing more: the trimmed fields are already trimmed. */
  lemma UpdateIdempotent(db: Db, caller: Id, id: Id, body: TaskBody)
    ensures var once := Update(db, caller, id, body);
            Update(once.db, caller, id, body) == once
  {
    var once := Update(db, caller, id, body);
    var found := FindTask(db.tasks, id);
    if found.Some? && db.tasks[found.value].user == caller {
      var i := found.value;
      var t := ApplySet(db.tasks[i], FieldsOf(body));
      assert once.db.tasks == db.tasks[i := t];
      FindTaskSameIds(db.tasks, once.db.tasks, id);
      ApplySetIdempotent(db.tasks[i], FieldsOf(body));
      assert once.db.tasks[i := ApplySet(t, FieldsOf(body))] == once.db.tasks;
    }
  }

  /** An owner's delete removes exactly the task with that id and keeps every other task. */
  lemma DeleteRemovesExactly(db: Db, caller: Id, id: Id)
    requires DistinctTaskIds(db.tasks)
    requires var f := FindTask(db.tasks, id); f.Some? && db.tasks[f.value].user == caller
    ensures forall t :: t in Delete(db, caller, id).db.tasks <==> t in db.tasks && t.id != id
  {
    RemoveAtMembers(db.tasks, FindTask(db.tasks, id).value);
  }

  /** Another user's task can be neither updated nor deleted: both answer 401 and the store is unchanged. */
  lemma ForeignTaskRefused(db: Db, caller: Id, i: nat, body: TaskBody)
    requires DistinctTaskIds(db.tasks) && i < |db.tasks| && db.tasks[i].user != caller
    ensures Update(db, caller, db.tasks[i].id, body) == Step(NotAuthorized, db)
    ensures Delete(db, caller, db.tasks[i].id) == Step(NotAuthorized, db)
  {
    FindTaskAt(db.tasks, i);
  }

  /** A task just created shows up in its owner's list. */
  lemma CreateThenList(db: Db, caller: Id, body: TaskBody, now: int)
    requires Create(db, caller, body, now).resp.status == 200
    ensures var c := Create(db, caller, body, now);
            c.resp.body.task in List(c.db, caller).resp.body.tasks
  {
    var c := Create(db, caller, body, now);
    assert c.db.tasks[|db.tasks|] == c.resp.body.task;
  }

  /** Registration keeps usernames unique, whatever the store held before. */
  lemma RegisterKeepsUsernamesUnique(db: Db, body: Credentials, h: Hasher, salt: string, now: int)
    requires UniqueUsernames(db.users)
    ensures UniqueUsernames(Register(db, body, h, salt, now).db.users)
  {
    var r := Register(db, body, h, salt, now);
    if r.resp == Registered {
      forall a, b | 0 <= a < b < |r.db.users| ensures r.db.users[a].username != r.db.users[b].username {
        assert r.db.users[a] == db.users[a];
        if b == |db.users| {
          assert db.users[a] in db.users;
        } else {
          assert r.db.users[b] == db.users[b];
        }
      }
    }
  }

  /** Enrolling a fresh username keeps the store invariant, whatever the seeds. */
  lemma EnrollKeepsConsistent(db: Db, name: string, digest: string, seeds: seq<Seed>, now: int)
    requires Consistent(db)
    requires forall j :: 0 <= j < |db.users| ==> db.users[j].username != name
    ensures Consistent(Enroll(db, name, digest, seeds, now))
  {
    AddUserWithTasksKeepsConsistent(db, User(db.nextId, name, digest),
      SeedTasks(seeds, db.nextId, db.nextId + 1, now), Enroll(db, name, digest, seeds, now));
  }

  /** Registration keeps the store invariant. */
  lemma RegisterKeepsConsistent(db: Db, body: Credentials, h: Hasher, salt: string, now: int)
    requires Consistent(db)
    ensures Consistent(Register(db, body, h, salt, now).db)
  {
    if Truthy(body.username) && Truthy(body.password) && FindUser(db.users, body.username.value).None? {
      EnrollKeepsConsistent(db, body.username.value, h.hash(body.password.value, salt), InitialTasks, now);
    }
  }

  /** Enrolling with seeds the schema stores verbatim keeps every stored task valid. */
  lemma EnrollKeepsSchema(db: Db, name: string, digest: string, seeds: seq<Seed>, now: int)
    requires AllValid(db.tasks)
    requires forall i :: 0 <= i < |seeds| ==> SeedOk(seeds[i])
    ensures AllValid(Enroll(db, name, digest, seeds, now).tasks)
  {
    SeedTasksValid(seeds, db.nextId, db.nextId + 1, now);
    AppendKeepsAllValid(db.tasks, SeedTasks(seeds, db.nextId, db.nextId + 1, now));
  }

  /** Registration keeps every stored task within the schema. */
  lemma RegisterKeepsSchema(db: Db, body: Credentials, h: Hasher, salt: string, now: int)
    requires AllValid(db.tasks)
    ensures AllValid(Register(db, body, h, salt, now).db.tasks)
  {
    if Truthy(body.username) && Truthy(body.password) && FindUser(db.users, body.username.value).None? {
      InitialTasksOk();
      EnrollKeepsSchema(db, body.username.value, h.hash(body.password.value, salt), InitialTasks, now);
    }
  }

  /**
    Tasks appended for the id the counter hands out next are the whole of that
    id's task list: no earlier task can belong to it.
   */
  lemma ListOfFreshOwner(db: Db, r: Db, added: seq<Task>)
    requires Consistent(db)
    requires r.tasks == db.tasks + added
    requires forall j :: 0 <= j < |added| ==> added[j].user == db.nextId
    ensures multiset(List(r, db.nextId).resp.body.tasks) == multiset(added)
  {
    FreshIdOwnsNothing(db);
    OwnerShareOfAppend(db.tasks, added, db.nextId, multiset(List(r, db.nextId).resp.body.tasks));
  }

  /** The fresh account's tasks after enrolling are exactly its seed tasks. */
  lemma EnrollThenList(db: Db, name: string, digest: string, seeds: seq<Seed>, now: int)
    requires Consistent(db)
    ensures var listed := List(Enroll(db, name, digest, seeds, now), db.nextId).resp.body.tasks;
            multiset(listed) == multiset(SeedTasks(seeds, db.nextId, db.nextId + 1, now))
  {
    ListOfFreshOwner(db, Enroll(db, name, digest, seeds, now), SeedTasks(seeds, db.nextId, db.nextId + 1, now));
  }

  /**
    After a registration, the new account's task list is exactly its four seed
    tasks: no earlier task can belong to the fresh id.
   */
  lemma RegisterThenList(db: Db, body: Credentials, h: Hasher, salt: string, now: int)
    requires Consistent(db)
    requires Register(db, body, h, salt, now).resp == Registered
    ensures var r := Register(db, body, h, salt, now);
            var listed := List(r.db, db.nextId).resp.body.tasks;
            && |listed| == 4
            && multiset(listed) == multiset(SeedTasks(InitialTasks, db.nextId, db.nextId + 1, now))
  {
    var r := Register(db, body, h, salt, now);
    var listed := List(r.db, db.nextId).resp.body.tasks;
    var seeded := SeedTasks(InitialTasks, db.nextId, db.nextId + 1, now);
    assert r.db == Enroll(db, body.username.value, h.hash(body.password.value, salt), InitialTasks, now);
    EnrollThenList(db, body.username.value, h.hash(body.password.value, salt), InitialTasks, now);
    assert |listed| == |multiset(listed)| == |multiset(seeded)| == |seeded|;
  }

  /** With a sound hasher, registering and then logging in with the same credentials succeeds for the new account. */
  lemma RegisterThenLogin(db: Db, body: Credentials, h: Hasher, salt: string, now: int, later: int)
    requires Sound(h)
    requires Register(db, body, h, salt, now).resp == Registered
    ensures var r := Register(db, body, h, salt, now);
            var l := Login(r.db, body, h, later);
            && l.resp.status == 200
            && l.resp.body.token.user.id == db.nextId
  {
    var r := Register(db, body, h, salt, now);
    var name, password := body.username.value, body.password.value;
    var k := |db.users|;
    assert r.db.users[k].username == name;
    assert FindUser(r.db.users, name) == Some(k);
    assert h.compare(password, h.hash(password, salt));
  }

  /** An unknown username and a wrong password are answered identically. */
  lemma LoginFailuresAlike(db1: Db, db2: Db, b1: Credentials, b2: Credentials, h: Hasher, now1: int, now2: int)
    requires Truthy(b1.username) && Truthy(b1.password) && Truthy(b2.username) && Truthy(b2.password)
    requires forall u :: u in db1.users ==> u.username != b1.username.value
    requires forall u :: u in db2.users && u.username == b2.username.value ==> !h.compare(b2.password.value, u.password)
    ensures Login(db1, b1, h, now1).resp == Login(db2, b2, h, now2).resp == InvalidCredentials
  {
  }
}
