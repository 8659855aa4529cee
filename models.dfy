/**
 * The relational schema of the task tracker: the `users`, `tasks` and
 * `otp_codes` tables as record datatypes, the table constraints as
 * predicates over the stored rows, and the cascade that deletes a user's
 * tasks together with the user.
 */
module Models {

  /** A point on the UTC clock, in seconds. */
  type Time = int

  /** A row of `users`. The password is kept verbatim (the column is called `password_hash`, but nothing hashes it). */
  datatype User = User(id: nat, email: string, password: string)

  /** The two values the application ever writes into `tasks.status`. */
  datatype Status = Pending | Completed

  /** A row of `tasks`. */
  datatype Task = Task(id: nat, title: string, status: Status, dueDate: Time, createdAt: Time, ownerId: nat)

  /**
   * A row of `otp_codes`. Its surrogate `id` column is never read by the
   * application and is not modelled; a row is identified by its position.
   */
  datatype OtpCode = OtpCode(email: string, code: string, expiresAt: Time)

  /** The column default of `tasks.status`. */
  const DefaultStatus: Status := Pending

  /** `users.email` is unique: two stored users with the same email are one and the same row. */
  predicate UniqueEmails(users: seq<User>): (b: bool)
    ensures b ==> forall u, v :: u in users && v in users && u.email == v.email ==> u == v
  {
    forall i, j :: 0 <= i < j < |users| ==> users[i].email != users[j].email
  }

  /** `users.id` is the primary key: two stored users with the same id are one and the same row. */
  predicate UniqueUserIds(users: seq<User>): (b: bool)
    ensures b ==> forall u, v :: u in users && v in users && u.id == v.id ==> u == v
  {
    forall i, j :: 0 <= i < j < |users| ==> users[i].id != users[j].id
  }

  /** `tasks.id` is the primary key: two stored tasks with the same id are one and the same row. */
  predicate UniqueTaskIds(tasks: seq<Task>): (b: bool)
    ensures b ==> forall t, t' :: t in tasks && t' in tasks && t.id == t'.id ==> t == t'
  {
    forall i, j :: 0 <= i < j < |tasks| ==> tasks[i].id != tasks[j].id
  }

  function UserIds(users: seq<User>): set<nat> {
    set i | 0 <= i < |users| :: users[i].id
  }

  /** `tasks.owner_id` is a non-null foreign key into `users.id`: every stored task has a stored owner. */
  predicate OwnersExist(users: seq<User>, tasks: seq<Task>): (b: bool)
    ensures b <==> forall t :: t in tasks ==> exists u :: u in users && u.id == t.ownerId
  {
    forall i :: 0 <= i < |tasks| ==> tasks[i].ownerId in UserIds(users)
  }

  /**
   * The integrity of the two related tables; `nextUserId` and `nextTaskId`
   * are the ids the database will hand out next, above every id in use.
   */
  predicate ValidStore(users: seq<User>, tasks: seq<Task>, nextUserId: nat, nextTaskId: nat) {
    && UniqueEmails(users)
    && UniqueUserIds(users)
    && (forall i :: 0 <= i < |users| ==> users[i].id < nextUserId)
    && UniqueTaskIds(tasks)
    && (forall i :: 0 <= i < |tasks| ==> tasks[i].id < nextTaskId)
    && OwnersExist(users, tasks)
  }

  /**
   * What the constraints give a reader of the tables: every task's id is below
   * the next task id, and its owner is one stored user whose id is below the
   * next user id.
   */
  lemma ValidStoreOwner(users: seq<User>, tasks: seq<Task>, nextUserId: nat, nextTaskId: nat, t: Task)
    requires ValidStore(users, tasks, nextUserId, nextTaskId)
    requires t in tasks
    ensures t.id < nextTaskId
    ensures exists u :: u in users && u.id == t.ownerId && u.id < nextUserId
    ensures forall u, v :: u in users && v in users && u.id == t.ownerId && v.id == t.ownerId ==> u == v
  {
    var k :| 0 <= k < |tasks| && tasks[k] == t;
    var j :| 0 <= j < |users| && users[j].id == t.ownerId;
    assert users[j] in users;
  }

  /** Inserting a user with a new email and the next id keeps every table constraint. */
  lemma AddUserKeepsStore(users: seq<User>, tasks: seq<Task>, nextUserId: nat, nextTaskId: nat, u: User)
    requires ValidStore(users, tasks, nextUserId, nextTaskId)
    requires u.id == nextUserId && forall i :: 0 <= i < |users| ==> users[i].email != u.email
    ensures ValidStore(users + [u], tasks, nextUserId + 1, nextTaskId)
  {
    var users' := users + [u];
    assert forall i :: 0 <= i < |users| ==> users'[i] == users[i];
    assert UserIds(users) <= UserIds(users') by {
      forall id | id in UserIds(users) ensures id in UserIds(users') {
        var k :| 0 <= k < |users| && users[k].id == id;
        assert users'[k].id == id;
      }
    }
  }

  /** Inserting a task with the next id and an existing owner keeps every table constraint. */
  lemma AddTaskKeepsStore(users: seq<User>, tasks: seq<Task>, nextUserId: nat, nextTaskId: nat, t: Task)
    requires ValidStore(users, tasks, nextUserId, nextTaskId)
    requires t.id == nextTaskId && t.ownerId in UserIds(users)
    ensures ValidStore(users, tasks + [t], nextUserId, nextTaskId + 1)
  {
    var tasks' := tasks + [t];
    assert forall i :: 0 <= i < |tasks| ==> tasks'[i] == tasks[i];
  }

  /** The users left when the user with id `uid` is deleted. */
  function UsersWithoutId(users: seq<User>, uid: nat): (r: seq<User>)
    ensures forall u :: u in r <==> u in users && u.id != uid
  {
    if users == [] then []
    else if users[0].id == uid then UsersWithoutId(users[1..], uid)
    else [users[0]] + UsersWithoutId(users[1..], uid)
  }

  /** The tasks left when every task owned by `uid` is deleted. */
  function TasksWithoutOwner(tasks: seq<Task>, uid: nat): (r: seq<Task>)
    ensures forall t :: t in r <==> t in tasks && t.ownerId != uid
  {
    if tasks == [] then []
    else if tasks[0].ownerId == uid then TasksWithoutOwner(tasks[1..], uid)
    else [tasks[0]] + TasksWithoutOwner(tasks[1..], uid)
  }

  /** Removing users keeps emails unique. */
  lemma {:induction false} UsersWithoutIdUniqueEmails(users: seq<User>, uid: nat)
    requires UniqueEmails(users)
    ensures UniqueEmails(UsersWithoutId(users, uid))
  {
    if users != [] {
      var rest := UsersWithoutId(users[1..], uid);
      UsersWithoutIdUniqueEmails(users[1..], uid);
      if users[0].id != uid {
        forall j | 0 <= j < |rest| ensures users[0].email != rest[j].email {
          var k :| 0 <= k < |users[1..]| && users[1..][k] == rest[j];
          assert users[k + 1] == rest[j];
        }
      }
    }
  }

  /** Removing users keeps ids unique. */
  lemma {:induction false} UsersWithoutIdUniqueIds(users: seq<User>, uid: nat)
    requires UniqueUserIds(users)
    ensures UniqueUserIds(UsersWithoutId(users, uid))
  {
    if users != [] {
      var rest := UsersWithoutId(users[1..], uid);
      UsersWithoutIdUniqueIds(users[1..], uid);
      if users[0].id != uid {
        forall j | 0 <= j < |rest| ensures users[0].id != rest[j].id {
          var k :| 0 <= k < |users[1..]| && users[1..][k] == rest[j];
          assert users[k + 1] == rest[j];
        }
      }
    }
  }

  /** Removing tasks keeps task ids unique. */
  lemma {:induction false} TasksWithoutOwnerUnique(tasks: seq<Task>, uid: nat)
    requires UniqueTaskIds(tasks)
    ensures UniqueTaskIds(TasksWithoutOwner(tasks, uid))
  {
    if tasks != [] {
      var rest := TasksWithoutOwner(tasks[1..], uid);
      TasksWithoutOwnerUnique(tasks[1..], uid);
      if tasks[0].ownerId != uid {
        forall j | 0 <= j < |rest| ensures tasks[0].id != rest[j].id {
          var k :| 0 <= k < |tasks[1..]| && tasks[1..][k] == rest[j];
          assert tasks[k + 1] == rest[j];
        }
      }
    }
  }

  /**
   * Deleting a user: the relationship `User.tasks` is declared with
   * `cascade="all, delete-orphan"`, so the user's tasks go with it.
   * No route of the application deletes a user.
   */
  function DeleteUser(users: seq<User>, tasks: seq<Task>, uid: nat): (r: (seq<User>, seq<Task>))
    ensures forall u :: u in r.0 <==> u in users && u.id != uid
    ensures forall t :: t in r.1 <==> t in tasks && t.ownerId != uid
  {
    (UsersWithoutId(users, uid), TasksWithoutOwner(tasks, uid))
  }

  /** Removing users keeps every remaining id below the bound. */
  lemma UsersWithoutIdBelow(users: seq<User>, uid: nat, bound: nat)
    requires forall i :: 0 <= i < |users| ==> users[i].id < bound
    ensures forall i :: 0 <= i < |UsersWithoutId(users, uid)| ==> UsersWithoutId(users, uid)[i].id < bound
  {
    var users' := UsersWithoutId(users, uid);
    forall i | 0 <= i < |users'| ensures users'[i].id < bound {
      var k :| 0 <= k < |users| && users[k] == users'[i];
    }
  }

  /** The cascade leaves every remaining task with a remaining owner, and task ids below the bound. */
  lemma TasksWithoutOwnerKeepOwners(users: seq<User>, tasks: seq<Task>, uid: nat, bound: nat)
    requires OwnersExist(users, tasks)
    requires forall i :: 0 <= i < |tasks| ==> tasks[i].id < bound
    ensures OwnersExist(UsersWithoutId(users, uid), TasksWithoutOwner(tasks, uid))
    ensures forall i :: 0 <= i < |TasksWithoutOwner(tasks, uid)| ==> TasksWithoutOwner(tasks, uid)[i].id < bound
  {
    var users' := UsersWithoutId(users, uid);
    var tasks' := TasksWithoutOwner(tasks, uid);
    forall i | 0 <= i < |tasks'| ensures tasks'[i].ownerId in UserIds(users') && tasks'[i].id < bound {
      var t := tasks'[i];
      var k :| 0 <= k < |tasks| && tasks[k] == t;
      var j :| 0 <= j < |users| && users[j].id == t.ownerId;
      assert users[j] in users';
      var m :| 0 <= m < |users'| && users'[m] == users[j];
    }
  }

  /** Thanks to the cascade, deleting a user leaves no task pointing at a missing owner. */
  lemma DeleteUserKeepsStore(users: seq<User>, tasks: seq<Task>, nextUserId: nat, nextTaskId: nat, uid: nat)
    requires ValidStore(users, tasks, nextUserId, nextTaskId)
    ensures ValidStore(DeleteUser(users, tasks, uid).0, DeleteUser(users, tasks, uid).1, nextUserId, nextTaskId)
  {
    UsersWithoutIdUniqueEmails(users, uid);
    UsersWithoutIdUniqueIds(users, uid);
    TasksWithoutOwnerUnique(tasks, uid);
    UsersWithoutIdBelow(users, uid, nextUserId);
    TasksWithoutOwnerKeepOwners(users, tasks, uid, nextTaskId);
  }
}
