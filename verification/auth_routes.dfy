/**
  The `/api/auth` routes: registration, which stores a bcrypt digest and seeds
  the new account with four starter tasks, and login, which checks the password
  and answers with a five-hour token naming only the user id.
 */
module AuthRoutes {
  import opened Base
  import opened JsText
  import opened TaskModel
  import opened Store
  import opened Jwt
  import opened Http

  datatype Credentials = Credentials(username: Option<string>, password: Option<string>)

  /**
    bcrypt as two opaque functions: `hash(password, salt)` and `compare(password, digest)`.
    The salt is the value `genSalt(10)` drew.
   */
  datatype Hasher = Hasher(hash: (string, string) -> string, compare: (string, string) -> bool)

  /** The one property relied on: a password matches any digest made from it. */
  ghost predicate Sound(h: Hasher) {
    forall password, salt :: h.compare(password, h.hash(password, salt))
  }

  /** An entry of `initialTasks`. */
  datatype Seed = Seed(text: string, details: string, priority: Priority)

  /** The four starter tasks. */
  const InitialTasks: seq<Seed> := [
    Seed("Connect to command console",
         "Check " + "mission logs and familiarize with the UI.", High),
    Seed("Add new mission targets",
         "Use " + "the input fields below to add new tasks to the list.", Medium),
    Seed("Neutralize a target",
         "Click " + "the priority label (e.g. // HIGH) to complete a task.", Low),
    Seed("Edit a target",
         "Long-press " + "or long-click on a mission log to load it into the editor below.", Medium)
  ]

  const FieldsMissing: Response := Response(400, Message("Please enter all fields"))
  const UserExists: Response := Response(400, Message("User already exists"))
  const Registered: Response := Response(201, Message("User registered successfully"))
  const InvalidCredentials: Response := Response(400, Message("Invalid credentials"))

  /**
    One `initialTasks` entry stored for `owner`. The schema's `trim` setters leave
    the starter strings as they are (`SeedCastAsSchema`), so they are stored as written.
   */
  function CastSeed(s: Seed, owner: Id, id: Id, now: int): Task {
    Task(id, owner, s.text, Some(s.details), PriorityName(s.priority), now)
  }

  /**
    `initialTasks.map(task => ({ ...task, user }))` as `insertMany` stores it:
    one task per entry, in order, owned by `owner`, with consecutive fresh ids.
   */
  function SeedTasks(seeds: seq<Seed>, owner: Id, firstId: Id, now: int): (r: seq<Task>)
    ensures |r| == |seeds|
    ensures forall i :: 0 <= i < |r| ==> r[i] == CastSeed(seeds[i], owner, firstId + i, now)
  {
    if |seeds| == 0 then []
    else [CastSeed(seeds[0], owner, firstId, now)] + SeedTasks(seeds[1..], owner, firstId + 1, now)
  }

  /** A seed the schema stores verbatim: non-empty text, no surrounding whitespace. */
  predicate SeedOk(s: Seed) {
    s.text != "" && Trimmed(s.text) && Trimmed(s.details)
  }

  /**
    Each starter entry has trimmed strings. The `details` literals above are
    written as two pieces split after the first word (the value is the same) so
    that this check can read their first character.
   */
  lemma InitialTaskOk(i: nat)
    requires i < |InitialTasks|
    ensures SeedOk(InitialTasks[i])
  {
    if i == 0 {
      assert SeedOk(InitialTasks[0]);
    } else if i == 1 {
      assert SeedOk(InitialTasks[1]);
    } else if i == 2 {
      assert SeedOk(InitialTasks[2]);
    } else {
      assert SeedOk(InitialTasks[3]);
    }
  }

  lemma InitialTasksOk()
    ensures |InitialTasks| == 4
    ensures forall i :: 0 <= i < |InitialTasks| ==> SeedOk(InitialTasks[i])
  {
    forall i | 0 <= i < |InitialTasks| ensures SeedOk(InitialTasks[i]) {
      InitialTaskOk(i);
    }
  }

  /** For a seed with trimmed strings, storing it as written is exactly what the schema would save. */
  lemma SeedCastAsSchema(s: Seed, owner: Id, id: Id, now: int)
    requires SeedOk(s)
    ensures NewTask(id, owner, Some(s.text), Some(s.details), Some(PriorityName(s.priority)), now)
            == Some(CastSeed(s, owner, id, now))
  {
    ParsePriorityName(s.priority);
    NewTaskOfTrimmed(id, owner, s.text, s.details, PriorityName(s.priority), now);
  }

  /** Seeds that the schema stores verbatim yield valid tasks. */
  lemma {:induction false} SeedTasksValid(seeds: seq<Seed>, owner: Id, firstId: Id, now: int)
    requires forall i :: 0 <= i < |seeds| ==> SeedOk(seeds[i])
    ensures AllValid(SeedTasks(seeds, owner, firstId, now))
  {
    var r := SeedTasks(seeds, owner, firstId, now);
    forall i | 0 <= i < |r| ensures TaskModel.Valid(r[i]) {
      SeedCastAsSchema(seeds[i], owner, firstId + i, now);
    }
  }

  /** Registration seeds four tasks, in order High, Medium, Low, Medium, stamped alike. */
  lemma InitialTasksShape(owner: Id, firstId: Id, now: int)
    ensures var r := SeedTasks(InitialTasks, owner, firstId, now);
            && |r| == 4
            && (forall i :: 0 <= i < 4 ==> r[i].id == firstId + i && r[i].user == owner && r[i].createdAt == now)
            && [r[0].priority, r[1].priority, r[2].priority, r[3].priority]
               == ["High", "Medium", "Low", "Medium"]
  {
  }

  /** The seeded tasks satisfy the schema. */
  lemma InitialTasksValid(owner: Id, firstId: Id, now: int)
    ensures AllValid(SeedTasks(InitialTasks, owner, firstId, now))
  {
    InitialTasksOk();
    SeedTasksValid(InitialTasks, owner, firstId, now);
  }

  /**
    `user.save()` then `Task.insertMany(...)`: the account is appended and its
    seed tasks follow the existing ones; fresh ids are taken from the counter.
   */
  function Enroll(db: Db, name: string, digest: string, seeds: seq<Seed>, now: int): (r: Db)
    ensures r.users == db.users + [User(db.nextId, name, digest)]
    ensures r.nextId == db.nextId + 1 + |seeds|
    ensures |r.tasks| == |db.tasks| + |seeds| && r.tasks[..|db.tasks|] == db.tasks
    ensures r.tasks == db.tasks + SeedTasks(seeds, db.nextId, db.nextId + 1, now)
    ensures forall i :: |db.tasks| <= i < |r.tasks| ==>
              r.tasks[i].user == db.nextId && r.tasks[i].createdAt == now
              && db.nextId < r.tasks[i].id < r.nextId
  {
    var seeded := SeedTasks(seeds, db.nextId, db.nextId + 1, now);
    var tasks := db.tasks + seeded;
    assert tasks[..|db.tasks|] == db.tasks;
    Db(db.users + [User(db.nextId, name, digest)], tasks, db.nextId + 1 + |seeds|)
  }

  /**
    POST `/register`: both fields must be present and non-empty, the username
    unused; then one user holding the digest and the four seed tasks are saved.
    The answer is an acknowledgement, not a token.
   */
  function Register(db: Db, body: Credentials, h: Hasher, salt: string, now: int): (r: Step)
    ensures !Truthy(body.username) || !Truthy(body.password) ==> r == Step(FieldsMissing, db)
    ensures (Truthy(body.username) && Truthy(body.password)
             && FindUser(db.users, body.username.value).Some?) ==> r == Step(UserExists, db)
    ensures r.resp == Registered <==>
              Truthy(body.username) && Truthy(body.password)
              && forall u :: u in db.users ==> u.username != body.username.value
    ensures r.resp == Registered ==>
              && r.db.users == db.users + [User(db.nextId, body.username.value,
                                                 h.hash(body.password.value, salt))]
              && |r.db.tasks| == |db.tasks| + 4
              && r.db.tasks[..|db.tasks|] == db.tasks
              && (forall i :: |db.tasks| <= i < |r.db.tasks| ==>
                    r.db.tasks[i].user == db.nextId && r.db.tasks[i].createdAt == now)
              && (forall i :: 0 <= i < |InitialTasks| ==>
                    var t, s := r.db.tasks[|db.tasks| + i], InitialTasks[i];
                    t.text == s.text && t.details == Some(s.details)
                    && t.priority == PriorityName(s.priority))
  {
    if !Truthy(body.username) || !Truthy(body.password) then Step(FieldsMissing, db)
    else
      var name, password := body.username.value, body.password.value;
      match FindUser(db.users, name)
      case Some(_) => Step(UserExists, db)
      case None =>
        Step(Registered, Enroll(db, name, h.hash(password, salt), InitialTasks, now))
  }

  /**
    POST `/login`: an unknown username and a wrong password get the same answer;
    success returns a token for the stored user's id. The store is never written.
   */
  function Login(db: Db, body: Credentials, h: Hasher, now: int): (r: Step)
    ensures r.db == db
    ensures !Truthy(body.username) || !Truthy(body.password) ==> r.resp == FieldsMissing
    ensures r.resp == InvalidCredentials <==>
              && Truthy(body.username) && Truthy(body.password)
              && var f := FindUser(db.users, body.username.value);
              (f.None? || !h.compare(body.password.value, db.users[f.value].password))
    ensures r.resp.status == 200 ==>
              && Truthy(body.username) && Truthy(body.password)
              && r.resp.body.TokenBody?
              && var c := r.resp.body.token;
              && (exists u :: u in db.users && u.username == body.username.value && c.user.id == u.id
                               && h.compare(body.password.value, u.password))
              && c.exp - c.iat == 5 * 60 * 60
              && c.iat * 1000 <= now < c.iat * 1000 + 1000
    ensures Truthy(body.username) && Truthy(body.password) ==>
              var f := FindUser(db.users, body.username.value);
              f.Some? && h.compare(body.password.value, db.users[f.value].password)
              ==> r.resp == Response(200, TokenBody(Sign(db.users[f.value].id, now)))
  {
    if !Truthy(body.username) || !Truthy(body.password) then Step(FieldsMissing, db)
    else
      var name, password := body.username.value, body.password.value;
      match FindUser(db.users, name)
      case None => Step(InvalidCredentials, db)
      case Some(k) =>
        var user := db.users[k];
        if !h.compare(password, user.password) then Step(InvalidCredentials, db)
        else Step(Response(200, TokenBody(Sign(user.id, now))), db)
  }
}
