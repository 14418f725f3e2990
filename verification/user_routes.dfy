/** The POST /users, PUT /users/:id and DELETE /users/:id handlers, as methods that
    either answer with an error or apply the handler's writes to the store in order. */
module UserRoutes {

  import opened Common
  import opened Lists
  import opened TaskModel
  import opened UserModel
  import opened Writes
  import opened Store
  import opened UserHelpers
  import opened Coherence

  /** The request body of a user create or update. `name` and `email` are the strings
      sent, "" when absent; `pendingTasks` is `None` when the field is not an array and
      otherwise its elements as strings. */
  datatype UserBody = UserBody(name: string, email: string, pendingTasks: Option<seq<Id>>)

  /** `removeTasksFromUsers(tasks, currentUserId)`: for each task read, in order, pull
      its id from its recorded owner unless that owner is empty or is the current user. */
  method RemoveTasksFromUsers(db: Database, found: seq<(Id, Task)>, current: Id)
    modifies db
    ensures db.tasks == old(db.tasks)
    ensures db.users == StealFrom(old(db.users), found, current)
  {
    StealNothing(db.users, current);
    assert found[..0] == [];
    var i := 0;
    while i < |found|
      invariant 0 <= i <= |found|
      invariant db.tasks == old(db.tasks)
      invariant db.users == StealFrom(old(db.users), found[..i], current)
    {
      var (taskId, task) := found[i];
      StealFromStep(old(db.users), found, i, current);
      if task.assignedUser != NoOwner && task.assignedUser != current {
        db.users := PullFromUser(db.users, task.assignedUser, taskId);
      }
      i := i + 1;
    }
    assert found[..i] == found;
  }

  /** The first task write of an update: the tasks dropped from the old list become
      unassigned (skipped when none is dropped). */
  method UnassignDropped(db: Database, oldPending: seq<Id>, pending: seq<Id>)
    modifies db
    ensures db.users == old(db.users)
    ensures db.tasks == AssignMany(old(db.tasks), (set x | x in oldPending && x !in pending), NoOwner, Unassigned)
  {
    var toUnassign := Without(oldPending, set x | x in pending);
    ghost var dropped := set x | x in oldPending && x !in pending;
    assert (set x | x in toUnassign) == dropped;
    if |toUnassign| > 0 {
      db.tasks := AssignMany(db.tasks, (set x | x in toUnassign), NoOwner, Unassigned);
    } else {
      assert dropped == {};
      AssignNone(db.tasks, NoOwner, Unassigned);
    }
  }

  /** The task writes that end a successful create or update: assign the listed tasks
      (skipped for an empty list) and re-stamp every task the user owns. */
  method AssignAndRestamp(db: Database, uid: Id, pending: seq<Id>, name: string)
    modifies db
    ensures db.users == old(db.users)
    ensures db.tasks == RestampOwnedBy(AssignMany(old(db.tasks), (set x | x in pending), uid, name), uid, name)
  {
    if |pending| > 0 {
      db.tasks := AssignMany(db.tasks, (set x | x in pending), uid, name);
    } else {
      assert (set x | x in pending) == {};
      AssignNone(db.tasks, uid, name);
    }
    db.tasks := RestampOwnedBy(db.tasks, uid, name);
  }

  /** POST /users. `newId` is the identifier the store gives the new document. */
  method CreateUser(db: Database, body: UserBody, newId: Id) returns (r: Result<User>)
    requires newId != NoOwner && newId !in db.users
    modifies db
    ensures body.name == "" || body.email == "" ==> r == Err(NameAndEmailRequired)
    ensures body.name != "" && body.email != "" ==>
      var checked := ValidatePendingTasks(old(db.tasks), NormalizePendingTasks(body.pendingTasks));
      (checked.Err? ==> r == Err(checked.error)) &&
      // a request that passes every check is created
      (checked.Ok? ==> (r.Err? <==> EmailTaken(old(db.users), body.email, None)) && (r.Err? ==> r == Err(EmailExists)))
    // every rejection, the duplicate email at save included, comes before any write
    ensures r.Err? ==> db.tasks == old(db.tasks) && db.users == old(db.users)
    // `new User({...})` is given every field, so no schema default applies
    ensures r.Ok? ==> r.value == NewUser(body.name, body.email, Some(NormalizePendingTasks(body.pendingTasks)))
    ensures r.Ok? ==> db.users == AdoptUsers(old(db.users), old(db.tasks), newId, r.value)
    ensures r.Ok? ==> db.tasks == AdoptTasks(old(db.tasks), newId, [], r.value.pendingTasks, r.value.name)
    // every listed task now names the new user, and in a coherent store no other user lists it
    ensures r.Ok? ==> forall x :: x in r.value.pendingTasks ==>
      x in db.tasks && db.tasks[x].assignedUser == newId && db.tasks[x].assignedUserName == body.name
    ensures old(db.Valid()) ==> db.Valid()
    ensures r.Ok? && old(db.Valid()) ==>
      forall v, x :: v in db.users && v != newId && x in r.value.pendingTasks ==> x !in db.users[v].pendingTasks
  {
    ghost var tasks0, users0 := db.tasks, db.users;
    var pending := NormalizePendingTasks(body.pendingTasks);
    if body.name == "" || body.email == "" {
      return Err(NameAndEmailRequired);
    }
    var checked := ValidatePendingTasks(db.tasks, pending);
    if checked.Err? {
      return Err(checked.error);
    }
    var user := User(body.name, body.email, pending);
    // user.save(): the unique index on email rejects a duplicate
    if EmailTaken(db.users, user.email, None) {
      return Err(EmailExists);
    }
    db.users := db.users[newId := user];
    RemoveTasksFromUsers(db, checked.value, newId);
    StealFromSkipsCurrent(users0, checked.value, newId, user);
    AssignAndRestamp(db, newId, pending, user.name);
    assert (set x | x in [] && x !in pending) == {};
    AssignNone(tasks0, NoOwner, Unassigned);
    r := Ok(user);
    if Coherent(tasks0, users0) {
      assert !EmailTaken(users0, user.email, Some(newId));
      AdoptPreserves(tasks0, users0, newId, user);
    }
  }

  /** The reads and checks of PUT /users/:id, in the handler's order: the user must
      exist, name and email are required, a changed email must not belong to another
      user, and the requested tasks must exist and be open. On success, the tasks read. */
  function ReadUserUpdate(tasks: map<Id, Task>, users: map<Id, User>, id: Id, body: UserBody): (r: Result<seq<(Id, Task)>>)
    ensures id !in users ==> r == Err(UserNotFound)
    ensures id in users && (body.name == "" || body.email == "") ==> r == Err(NameAndEmailRequired)
    // the email is checked against the other users only when it changes
    ensures id in users && body.name != "" && body.email != "" ==>
      (r == Err(EmailExists) <==> body.email != users[id].email && EmailTaken(users, body.email, Some(id)))
    ensures (id in users && body.name != "" && body.email != "" &&
             !(body.email != users[id].email && EmailTaken(users, body.email, Some(id)))) ==>
      r == ValidatePendingTasks(tasks, NormalizePendingTasks(body.pendingTasks))
  {
    if id !in users then Err(UserNotFound)
    else if body.name == "" || body.email == "" then Err(NameAndEmailRequired)
    else if body.email != users[id].email && EmailTaken(users, body.email, Some(id)) then Err(EmailExists)
    else ValidatePendingTasks(tasks, NormalizePendingTasks(body.pendingTasks))
  }

  /** PUT /users/:id. The checks come first; then the tasks dropped from the old list are
      unassigned and the listed ones are taken from their previous owners, and only then
      is the user saved, so a save that fails leaves those writes in place. */
  method UpdateUser(db: Database, id: Id, body: UserBody) returns (r: Result<User>)
    requires id != NoOwner
    modifies db
    ensures ReadUserUpdate(old(db.tasks), old(db.users), id, body).Err? ==>
      r == Err(ReadUserUpdate(old(db.tasks), old(db.users), id, body).error) &&
      db.tasks == old(db.tasks) && db.users == old(db.users)
    // past the checks, only the save can fail, on an email another user has
    ensures ReadUserUpdate(old(db.tasks), old(db.users), id, body).Ok? ==>
      (r.Err? <==> EmailTaken(old(db.users), body.email, Some(id)))
    ensures ReadUserUpdate(old(db.tasks), old(db.users), id, body).Ok? && r.Err? ==>
      var pending := NormalizePendingTasks(body.pendingTasks);
      && r == Err(EmailExists)
      && db.tasks == AssignMany(old(db.tasks), (set x | x in old(db.users)[id].pendingTasks && x !in pending), NoOwner, Unassigned)
      && db.users == StealFrom(old(db.users), Snapshot(old(db.tasks), pending), id)
    ensures r.Ok? ==>
      && id in old(db.users)
      && r.value == old(db.users)[id].(name := body.name, email := body.email,
                                       pendingTasks := NormalizePendingTasks(body.pendingTasks))
      && db.users == AdoptUsers(old(db.users), old(db.tasks), id, r.value)
      && db.tasks == AdoptTasks(old(db.tasks), id, old(db.users)[id].pendingTasks, r.value.pendingTasks, r.value.name)
    // tasks dropped from the list are unassigned
    ensures r.Ok? ==> forall x :: x in db.tasks && x in old(db.users)[id].pendingTasks && x !in r.value.pendingTasks ==>
      db.tasks[x].assignedUser == NoOwner && db.tasks[x].assignedUserName == Unassigned
    // every task the user owns carries its new name
    ensures r.Ok? ==> forall x :: x in db.tasks && db.tasks[x].assignedUser == id ==>
      db.tasks[x].assignedUserName == body.name
    ensures old(db.Valid()) ==> db.Valid()
    // in a coherent store the update is all or nothing: the late save never fails
    ensures old(db.Valid()) && r.Err? ==>
      db.tasks == old(db.tasks) && db.users == old(db.users)
  {
    ghost var tasks0, users0 := db.tasks, db.users;
    var checked := ReadUserUpdate(db.tasks, db.users, id, body);
    if checked.Err? {
      return Err(checked.error);
    }
    var user := db.users[id].(name := body.name, email := body.email,
                              pendingTasks := NormalizePendingTasks(body.pendingTasks));
    var saved := ApplyUserUpdate(db, id, user, checked.value);
    if !saved {
      return Err(EmailExists);
    }
    r := Ok(user);
    if Coherent(tasks0, users0) {
      AdoptPreserves(tasks0, users0, id, user);
    }
  }

  /** The writes of PUT /users/:id once its checks have passed, in the handler's order:
      unassign the dropped tasks, take the listed ones from their previous owners, save
      the user (which fails on an email another user has), then assign and re-stamp. */
  method ApplyUserUpdate(db: Database, id: Id, user: User, found: seq<(Id, Task)>) returns (saved: bool)
    requires id != NoOwner && id in db.users
    requires forall x :: x in user.pendingTasks ==> x in db.tasks
    requires found == Snapshot(db.tasks, user.pendingTasks)
    modifies db
    ensures saved <==> !EmailTaken(old(db.users), user.email, Some(id))
    ensures !saved ==>
      && db.tasks == AssignMany(old(db.tasks), (set x | x in old(db.users)[id].pendingTasks && x !in user.pendingTasks), NoOwner, Unassigned)
      && db.users == StealFrom(old(db.users), found, id)
    ensures saved ==>
      && db.users == AdoptUsers(old(db.users), old(db.tasks), id, user)
      && db.tasks == AdoptTasks(old(db.tasks), id, old(db.users)[id].pendingTasks, user.pendingTasks, user.name)
  {
    ghost var users0 := db.users;
    var pending := user.pendingTasks;
    UnassignDropped(db, db.users[id].pendingTasks, pending);
    RemoveTasksFromUsers(db, found, id);
    // user.save(): the unique index on email rejects a duplicate
    StealKeepsEmails(users0, found, id, user.email, Some(id));
    if EmailTaken(db.users, user.email, Some(id)) {
      return false;
    }
    db.users := db.users[id := user];
    StealFromSkipsCurrent(users0, found, id, user);
    AssignAndRestamp(db, id, pending, user.name);
    saved := true;
  }

  /** DELETE /users/:id: the tasks it listed, then the tasks it owns, are unassigned,
      and the user is removed. */
  method DeleteUser(db: Database, id: Id) returns (r: Result<()>)
    modifies db
    ensures id !in old(db.users) ==> r == Err(UserNotFound) && db.tasks == old(db.tasks) && db.users == old(db.users)
    ensures id in old(db.users) ==> r == Ok(())
    ensures r.Ok? ==> db.users == old(db.users) - {id}
    ensures r.Ok? ==> db.tasks == ReleaseTasks(old(db.tasks), id, old(db.users)[id].pendingTasks)
    ensures r.Ok? && id != NoOwner ==> forall x :: x in db.tasks ==> db.tasks[x].assignedUser != id
    ensures old(db.Valid()) ==> db.Valid()
  {
    if id !in db.users {
      return Err(UserNotFound);
    }
    ghost var tasks0, users0 := db.tasks, db.users;
    var pending := db.users[id].pendingTasks;
    if |pending| > 0 {
      db.tasks := AssignMany(db.tasks, (set x | x in pending), NoOwner, Unassigned);
    } else {
      assert (set x | x in pending) == {};
      AssignNone(db.tasks, NoOwner, Unassigned);
    }
    db.tasks := ClearOwnedBy(db.tasks, id);
    db.users := db.users - {id};
    r := Ok(());
    if Coherent(tasks0, users0) {
      DeleteUserPreserves(tasks0, users0, id);
    }
  }
}
