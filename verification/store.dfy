/**
  The two MongoDB collections the routes touch, as sequences in natural
  (insertion) order, and the queries the routes issue against them:
  `findById`, `findOne({ username })`, `find({ user })`, `.sort({ createdAt: -1 })`
  and `findByIdAndRemove`.
 */
module Store {
  import opened Base
  import opened TaskModel

  /** A user document: the password field holds the bcrypt digest, never the plaintext. */
  datatype User = User(id: Id, username: string, password: string)

  /** Both collections, plus the source of fresh ObjectIds (every id in use is below `nextId`). */
  datatype Db = Db(users: seq<User>, tasks: seq<Task>, nextId: Id)

  /** The position of the first element whose key is `k`, if any: the lookup `findById` and `findOne` perform. */
  function FindFirst<T, K(==)>(s: seq<T>, key: T -> K, k: K): (r: Option<nat>)
    ensures r.Some? ==> r.value < |s| && key(s[r.value]) == k
    ensures r.Some? ==> forall j :: 0 <= j < r.value ==> key(s[j]) != k
    ensures r.None? <==> forall j :: 0 <= j < |s| ==> key(s[j]) != k
  {
    if |s| == 0 then None
    else if key(s[0]) == k then Some(0)
    else match FindFirst(s[1..], key, k)
      case None => None
      case Some(i) => Some(i + 1)
  }

  /** `findById`: the position of the first task with this id, if any. */
  function FindTask(tasks: seq<Task>, id: Id): (r: Option<nat>)
    ensures r.Some? ==> r.value < |tasks| && tasks[r.value].id == id
    ensures r.Some? ==> forall j :: 0 <= j < r.value ==> tasks[j].id != id
    ensures r.None? <==> forall j :: 0 <= j < |tasks| ==> tasks[j].id != id
  {
    FindFirst(tasks, (t: Task) => t.id, id)
  }

  /** `findOne({ username })`: the position of the first user with this name, if any. */
  function FindUser(users: seq<User>, username: string): (r: Option<nat>)
    ensures r.Some? ==> r.value < |users| && users[r.value].username == username
    ensures r.Some? ==> forall j :: 0 <= j < r.value ==> users[j].username != username
    ensures r.None? <==> forall j :: 0 <= j < |users| ==> users[j].username != username
  {
    FindFirst(users, (u: User) => u.username, username)
  }

  function UserIds(users: seq<User>): set<Id> {
    set u | u in users :: u.id
  }

  predicate DistinctTaskIds(tasks: seq<Task>) {
    forall i, j :: 0 <= i < j < |tasks| ==> tasks[i].id != tasks[j].id
  }

  predicate DistinctUserIds(users: seq<User>) {
    forall i, j :: 0 <= i < j < |users| ==> users[i].id != users[j].id
  }

  /** No two accounts share a username. */
  predicate UniqueUsernames(users: seq<User>) {
    forall i, j :: 0 <= i < j < |users| ==> users[i].username != users[j].username
  }

  /**
    The store invariant: ids are unique and below the id counter, usernames are
    unique, and every task's owner is a registered user.
   */
  predicate Consistent(db: Db) {
    && DistinctTaskIds(db.tasks)
    && DistinctUserIds(db.users)
    && UniqueUsernames(db.users)
    && (forall i :: 0 <= i < |db.tasks| ==> db.tasks[i].id < db.nextId)
    && (forall i :: 0 <= i < |db.users| ==> db.users[i].id < db.nextId)
    && (forall i :: 0 <= i < |db.tasks| ==> db.tasks[i].user in UserIds(db.users))
  }

  /** Every stored task satisfies the schema constraints. */
  predicate AllValid(tasks: seq<Task>) {
    forall i :: 0 <= i < |tasks| ==> TaskModel.Valid(tasks[i])
  }

  /** With unique ids, `findById` finds the one task carrying that id. */
  lemma FindTaskAt(tasks: seq<Task>, k: nat)
    requires DistinctTaskIds(tasks) && k < |tasks|
    ensures FindTask(tasks, tasks[k].id) == Some(k)
  {
  }

  /** `find({ user })`: the tasks owned by `owner`, each with its multiplicity in the store. */
  function OwnedBy(tasks: seq<Task>, owner: Id): (r: seq<Task>)
    ensures |r| <= |tasks|
    ensures forall t :: multiset(r)[t] == if t.user == owner then multiset(tasks)[t] else 0
  {
    if |tasks| == 0 then []
    else
      assert tasks == [tasks[0]] + tasks[1..];
      (if tasks[0].user == owner then [tasks[0]] else []) + OwnedBy(tasks[1..], owner)
  }

  /** `.sort({ createdAt: -1 })`: newest first. */
  predicate NewestFirst(tasks: seq<Task>) {
    forall i, j :: 0 <= i < j < |tasks| ==> tasks[i].createdAt >= tasks[j].createdAt
  }

  function InsertNewestFirst(t: Task, tasks: seq<Task>): (r: seq<Task>)
    requires NewestFirst(tasks)
    ensures NewestFirst(r)
    ensures |r| == |tasks| + 1
    ensures r[0] == t || (|tasks| > 0 && r[0] == tasks[0])
    ensures multiset(r) == multiset(tasks) + multiset{t}
  {
    if |tasks| == 0 || t.createdAt >= tasks[0].createdAt then [t] + tasks
    else
      var rest := InsertNewestFirst(t, tasks[1..]);
      assert tasks == [tasks[0]] + tasks[1..];
      assert rest[0].createdAt <= tasks[0].createdAt;
      [tasks[0]] + rest
  }

  /** Sorts newest first; the result is a permutation of the input. */
  function SortNewestFirst(tasks: seq<Task>): (r: seq<Task>)
    ensures NewestFirst(r)
    ensures multiset(r) == multiset(tasks)
  {
    if |tasks| == 0 then []
    else
      assert tasks == [tasks[0]] + tasks[1..];
      InsertNewestFirst(tasks[0], SortNewestFirst(tasks[1..]))
  }

  /** `findByIdAndRemove` at a known position: the others keep their order. */
  function RemoveAt(tasks: seq<Task>, i: nat): (r: seq<Task>)
    requires i < |tasks|
    ensures |r| == |tasks| - 1
    ensures forall k :: 0 <= k < i ==> r[k] == tasks[k]
    ensures forall k :: i <= k < |r| ==> r[k] == tasks[k + 1]
  {
    tasks[..i] + tasks[i + 1..]
  }

  /** With unique ids, removing position `i` removes exactly the task with that id. */
  lemma RemoveAtMembers(tasks: seq<Task>, i: nat)
    requires DistinctTaskIds(tasks) && i < |tasks|
    ensures forall t :: t in RemoveAt(tasks, i) <==> t in tasks && t.id != tasks[i].id
  {
    var r := RemoveAt(tasks, i);
    forall t | t in tasks && t.id != tasks[i].id ensures t in r {
      var k :| 0 <= k < |tasks| && tasks[k] == t;
      if k < i { assert r[k] == t; } else { assert r[k - 1] == t; }
    }
  }

  /** Removing a position keeps ids unique. */
  lemma RemoveAtDistinct(tasks: seq<Task>, i: nat)
    requires DistinctTaskIds(tasks) && i < |tasks|
    ensures DistinctTaskIds(RemoveAt(tasks, i))
  {
    var r := RemoveAt(tasks, i);
    forall a, b | 0 <= a < b < |r| ensures r[a].id != r[b].id {
      var a' := if a < i then a else a + 1;
      var b' := if b < i then b else b + 1;
      assert r[a] == tasks[a'] && r[b] == tasks[b'];
    }
  }

  /** Appending a task with the next fresh id, owned by a registered user, keeps the invariant. */
  lemma AppendKeepsConsistent(db: Db, t: Task)
    requires Consistent(db) && t.id == db.nextId && t.user in UserIds(db.users)
    ensures Consistent(db.(tasks := db.tasks + [t], nextId := db.nextId + 1))
  {
    var r := db.(tasks := db.tasks + [t], nextId := db.nextId + 1);
    forall a, b | 0 <= a < b < |r.tasks| ensures r.tasks[a].id != r.tasks[b].id {
      assert r.tasks[a] == db.tasks[a];
      if b < |db.tasks| { assert r.tasks[b] == db.tasks[b]; }
    }
  }

  /** Rewriting a task in place, keeping its id and owner, keeps the invariant. */
  lemma ReplaceKeepsConsistent(db: Db, i: nat, t: Task)
    requires Consistent(db) && i < |db.tasks|
    requires t.id == db.tasks[i].id && t.user == db.tasks[i].user
    ensures Consistent(db.(tasks := db.tasks[i := t]))
  {
    var r := db.(tasks := db.tasks[i := t]);
    forall j | 0 <= j < |r.tasks|
      ensures r.tasks[j].id == db.tasks[j].id && r.tasks[j].user == db.tasks[j].user
    {
    }
  }

  /** Removing a task keeps the invariant. */
  lemma RemoveKeepsConsistent(db: Db, i: nat)
    requires Consistent(db) && i < |db.tasks|
    ensures Consistent(db.(tasks := RemoveAt(db.tasks, i)))
  {
    var r := db.(tasks := RemoveAt(db.tasks, i));
    RemoveAtDistinct(db.tasks, i);
    forall j | 0 <= j < |r.tasks|
      ensures r.tasks[j].id < r.nextId && r.tasks[j].user in UserIds(r.users)
    {
      assert r.tasks[j] == db.tasks[if j < i then j else j + 1];
    }
  }

  /** Removing a task keeps the others within the schema. */
  lemma RemoveKeepsAllValid(tasks: seq<Task>, i: nat)
    requires AllValid(tasks) && i < |tasks|
    ensures AllValid(RemoveAt(tasks, i))
  {
    var r := RemoveAt(tasks, i);
    forall j | 0 <= j < |r| ensures TaskModel.Valid(r[j]) {
      assert r[j] == tasks[if j < i then j else j + 1];
    }
  }

  /** Registering a user under the next fresh id and an unused username keeps the invariant. */
  lemma AddUserKeepsConsistent(db: Db, u: User)
    requires Consistent(db) && u.id == db.nextId
    requires forall j :: 0 <= j < |db.users| ==> db.users[j].username != u.username
    ensures Consistent(db.(users := db.users + [u], nextId := db.nextId + 1))
  {
    var r := db.(users := db.users + [u], nextId := db.nextId + 1);
    assert UserIds(db.users) <= UserIds(r.users) by {
      forall x | x in UserIds(db.users) ensures x in UserIds(r.users) {
        var v :| v in db.users && v.id == x;
        assert v in r.users;
      }
    }
    forall a, b | 0 <= a < b < |r.users|
      ensures r.users[a].id != r.users[b].id && r.users[a].username != r.users[b].username
    {
      assert r.users[a] == db.users[a];
      if b < |db.users| { assert r.users[b] == db.users[b]; }
    }
    forall j | 0 <= j < |r.users| ensures r.users[j].id < r.nextId {
      if j < |db.users| { assert r.users[j] == db.users[j]; }
    }
  }

  /**
    Appending tasks that take consecutive fresh ids from the counter, each owned
    by a registered user, keeps the invariant.
   */
  lemma AppendManyKeepsConsistent(db: Db, ts: seq<Task>)
    requires Consistent(db)
    requires forall i :: 0 <= i < |ts| ==> ts[i].id == db.nextId + i && ts[i].user in UserIds(db.users)
    ensures Consistent(db.(tasks := db.tasks + ts, nextId := db.nextId + |ts|))
  {
    var r := db.(tasks := db.tasks + ts, nextId := db.nextId + |ts|);
    var n := |db.tasks|;
    forall j | 0 <= j < |r.tasks| ensures r.tasks[j].id < r.nextId && r.tasks[j].user in UserIds(r.users) {
      if j < n { assert r.tasks[j] == db.tasks[j]; } else { assert r.tasks[j] == ts[j - n]; }
    }
    forall a, b | 0 <= a < b < |r.tasks| ensures r.tasks[a].id != r.tasks[b].id {
      if b < n {
        assert r.tasks[a] == db.tasks[a] && r.tasks[b] == db.tasks[b];
      } else if a < n {
        assert r.tasks[a] == db.tasks[a] && r.tasks[b] == ts[b - n];
      } else {
        assert r.tasks[a] == ts[a - n] && r.tasks[b] == ts[b - n];
      }
    }
  }

  /** Concatenating two lists of schema-valid tasks gives a list of schema-valid tasks. */
  lemma AppendKeepsAllValid(a: seq<Task>, b: seq<Task>)
    requires AllValid(a) && AllValid(b)
    ensures AllValid(a + b)
  {
    forall j | 0 <= j < |a + b| ensures TaskModel.Valid((a + b)[j]) {
      if j < |a| { assert (a + b)[j] == a[j]; } else { assert (a + b)[j] == b[j - |a|]; }
    }
  }

  /** No stored task belongs to the id the counter hands out next. */
  lemma FreshIdOwnsNothing(db: Db)
    requires Consistent(db)
    ensures forall j :: 0 <= j < |db.tasks| ==> db.tasks[j].user != db.nextId
  {
    forall j | 0 <= j < |db.tasks| ensures db.tasks[j].user != db.nextId {
      var u :| u in db.users && u.id == db.tasks[j].user;
      var k :| 0 <= k < |db.users| && db.users[k] == u;
    }
  }

  /**
    When the older tasks `a` have other owners and the newer tasks `b` all belong
    to `owner`, the owner's share of `a + b` is exactly `b`.
   */
  lemma OwnerShareOfAppend(a: seq<Task>, b: seq<Task>, owner: Id, m: multiset<Task>)
    requires forall t :: m[t] == if t.user == owner then multiset(a + b)[t] else 0
    requires forall j :: 0 <= j < |a| ==> a[j].user != owner
    requires forall j :: 0 <= j < |b| ==> b[j].user == owner
    ensures m == multiset(b)
  {
    assert multiset(a + b) == multiset(a) + multiset(b);
    forall t ensures m[t] == multiset(b)[t] {
      if t.user == owner {
        assert t !in a;
      } else {
        assert t !in b;
      }
    }
  }

  /** `findById` only looks at ids: two lists with the same ids, position by position, give the same answer. */
  lemma {:induction false} FindTaskSameIds(a: seq<Task>, b: seq<Task>, id: Id)
    requires |a| == |b| && forall j :: 0 <= j < |a| ==> a[j].id == b[j].id
    ensures FindTask(a, id) == FindTask(b, id)
  {
    if |a| > 0 {
      FindTaskSameIds(a[1..], b[1..], id);
    }
  }

  /**
    Registering a user under the next fresh id and an unused username, then
    appending tasks for that user with the following ids, keeps the invariant.
   */
  lemma AddUserWithTasksKeepsConsistent(db: Db, u: User, ts: seq<Task>, r: Db)
    requires Consistent(db) && u.id == db.nextId
    requires forall j :: 0 <= j < |db.users| ==> db.users[j].username != u.username
    requires forall i :: 0 <= i < |ts| ==> ts[i].id == db.nextId + 1 + i && ts[i].user == u.id
    requires r.users == db.users + [u] && r.tasks == db.tasks + ts && r.nextId == db.nextId + 1 + |ts|
    ensures Consistent(r)
  {
    var mid := db.(users := db.users + [u], nextId := db.nextId + 1);
    AddUserKeepsConsistent(db, u);
    assert u.id in UserIds(mid.users) by { assert u in mid.users; }
    AppendManyKeepsConsistent(mid, ts);
    assert r == mid.(tasks := mid.tasks + ts, nextId := mid.nextId + |ts|);
  }
}
