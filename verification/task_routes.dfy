/** The POST /tasks, PUT /tasks/:id and DELETE /tasks/:id handlers, as methods that
    either answer with an error or apply the handler's writes to the store in order. */
module TaskRoutes {

  import opened Common
  import opened Js
  import opened TaskModel
  import opened UserModel
  import opened Writes
  import opened Store
  import opened TaskHelpers
  import opened Coherence

  /** The request body of a task create or update. `name` and `description` are the
      strings sent, "" when absent; `assignedUser` is `String(body.assignedUser)`, ""
      when that field is falsy. */
  datatype TaskBody = TaskBody(
    name: string,
    description: string,
    deadline: JsValue,
    completed: JsValue,
    assignedUser: Id)

  /** The reads and checks shared by task create and update, in the handlers' order:
      the deadline is parsed first, then the name is required, then a named owner must
      exist. On success, the task record the handler saves. */
  function ReadTaskBody(users: map<Id, User>, body: TaskBody, toDate: JsValue -> Option<Date>): (r: Result<Task>)
    ensures ParseDeadline(body.deadline, toDate).Err? ==> r == Err(ParseDeadline(body.deadline, toDate).error)
    ensures ParseDeadline(body.deadline, toDate).Ok? ==>
      (r == Err(NameRequired) <==> body.name == "") &&
      (r == Err(AssignedUserNotFound) <==>
        body.name != "" && body.assignedUser != NoOwner && body.assignedUser !in users)
    ensures r.Ok? ==>
      && r.value.name == body.name && r.value.name != ""
      && r.value.description == body.description
      && Ok(r.value.deadline) == ParseDeadline(body.deadline, toDate)
      && r.value.completed == ParseBoolean(body.completed, false)
      && r.value.assignedUser == body.assignedUser
      // the owner's name is cached, 'unassigned' without an owner
      && (body.assignedUser == NoOwner ==> r.value.assignedUserName == Unassigned)
      && (body.assignedUser != NoOwner ==>
            body.assignedUser in users && r.value.assignedUserName == users[body.assignedUser].name)
    // a body that passes all three checks is accepted
    ensures
      && ParseDeadline(body.deadline, toDate).Ok?
      && body.name != ""
      && (body.assignedUser == NoOwner || body.assignedUser in users)
      ==> r.Ok?
    // `new Task({...})` is given every field, so no schema default applies
    ensures r.Ok? ==>
      r.value == NewTask(body.name, r.value.deadline, Some(body.description), Some(r.value.completed),
                         Some(body.assignedUser), Some(r.value.assignedUserName))
  {
    match ParseDeadline(body.deadline, toDate)
    case Err(e) => Err(e)
    case Ok(deadline) =>
      var completed := ParseBoolean(body.completed, false);
      if body.name == "" then
        Err(NameRequired)
      else if body.assignedUser != NoOwner && body.assignedUser !in users then
        Err(AssignedUserNotFound)
      else
        var ownerName := if body.assignedUser == NoOwner then Unassigned else users[body.assignedUser].name;
        Ok(Task(body.name, body.description, deadline, completed, body.assignedUser, ownerName))
  }

  /** `updatePendingTasksForAssignment(taskId, oldUserId, newUserId, completed)`. */
  method UpdatePendingTasksForAssignment(db: Database, taskId: Id, oldUserId: Id, newUserId: Id, completed: bool)
    modifies db
    ensures db.tasks == old(db.tasks)
    ensures db.users == Reassign(old(db.users), taskId, oldUserId, newUserId, completed)
  {
    if oldUserId != NoOwner && oldUserId != newUserId {
      db.users := PullFromUser(db.users, oldUserId, taskId);
    }
    if newUserId != NoOwner {
      if completed {
        db.users := PullFromUser(db.users, newUserId, taskId);
      } else {
        db.users := AddToSetForUser(db.users, newUserId, taskId);
      }
    }
  }

  /** POST /tasks. `newId` is the identifier the store gives the new document. */
  method CreateTask(db: Database, body: TaskBody, toDate: JsValue -> Option<Date>, newId: Id) returns (r: Result<Task>)
    requires newId != NoOwner && newId !in db.tasks
    modifies db
    ensures r == ReadTaskBody(old(db.users), body, toDate)
    // a rejected request writes nothing
    ensures r.Err? ==> db.tasks == old(db.tasks) && db.users == old(db.users)
    ensures r.Ok? ==> db.tasks == old(db.tasks)[newId := r.value]
    ensures r.Ok? ==> db.users == Reassign(old(db.users), newId, NoOwner, r.value.assignedUser, r.value.completed)
    // an open task is on its owner's list, a completed one is not
    ensures r.Ok? && r.value.assignedUser != NoOwner ==>
      (newId in db.users[r.value.assignedUser].pendingTasks <==> !r.value.completed)
    ensures old(db.Valid()) ==> db.Valid()
  {
    ghost var tasks0, users0 := db.tasks, db.users;
    r := ReadTaskBody(db.users, body, toDate);
    if r.Err? {
      return;
    }
    var task := r.value;
    db.tasks := db.tasks[newId := task];
    if task.assignedUser != NoOwner {
      UpdatePendingTasksForAssignment(db, newId, NoOwner, task.assignedUser, task.completed);
    }
    if Coherent(tasks0, users0) {
      WriteTaskPreserves(tasks0, users0, newId, task);
    }
  }

  /** PUT /tasks/:id. The previous owner is read before the fields are overwritten. */
  method UpdateTask(db: Database, id: Id, body: TaskBody, toDate: JsValue -> Option<Date>) returns (r: Result<Task>)
    modifies db
    ensures id !in old(db.tasks) ==> r == Err(TaskNotFound)
    ensures id in old(db.tasks) ==> r == ReadTaskBody(old(db.users), body, toDate)
    ensures r.Err? ==> db.tasks == old(db.tasks) && db.users == old(db.users)
    ensures r.Ok? ==> db.tasks == old(db.tasks)[id := r.value]
    ensures r.Ok? ==>
      db.users == Reassign(old(db.users), id, old(db.tasks)[id].assignedUser, r.value.assignedUser, r.value.completed)
    // a change of owner takes the task off the previous owner's list
    ensures r.Ok? ==>
      var previous := old(db.tasks)[id].assignedUser;
      previous != NoOwner && previous != r.value.assignedUser && previous in db.users ==>
        id !in db.users[previous].pendingTasks
    ensures r.Ok? && r.value.assignedUser != NoOwner ==>
      (id in db.users[r.value.assignedUser].pendingTasks <==> !r.value.completed)
    ensures old(db.Valid()) ==> db.Valid()
  {
    if id !in db.tasks {
      return Err(TaskNotFound);
    }
    ghost var tasks0, users0 := db.tasks, db.users;
    r := ReadTaskBody(db.users, body, toDate);
    if r.Err? {
      return;
    }
    var previous := db.tasks[id].assignedUser;
    var task := r.value;
    db.tasks := db.tasks[id := task];
    UpdatePendingTasksForAssignment(db, id, previous, task.assignedUser, task.completed);
    if Coherent(tasks0, users0) {
      WriteTaskPreserves(tasks0, users0, id, task);
    }
  }

  /** DELETE /tasks/:id: the task leaves the store, and its id leaves the list of its
      recorded owner only. */
  method DeleteTask(db: Database, id: Id) returns (r: Result<()>)
    modifies db
    ensures id !in old(db.tasks) ==> r == Err(TaskNotFound) && db.tasks == old(db.tasks) && db.users == old(db.users)
    ensures id in old(db.tasks) ==> r == Ok(())
    ensures r.Ok? ==> db.tasks == old(db.tasks) - {id}
    ensures r.Ok? ==> db.users == PullFromOwner(old(db.tasks), old(db.users), id)
    ensures old(db.Valid()) ==> db.Valid()
    // in a coherent store the id is then on no list at all
    ensures r.Ok? && old(db.Valid()) ==>
      forall uid :: uid in db.users ==> id !in db.users[uid].pendingTasks
  {
    if id !in db.tasks {
      return Err(TaskNotFound);
    }
    ghost var tasks0, users0 := db.tasks, db.users;
    var owner := db.tasks[id].assignedUser;
    db.tasks := db.tasks - {id};
    if owner != NoOwner {
      db.users := PullFromUser(db.users, owner, id);
    }
    r := Ok(());
    if Coherent(tasks0, users0) {
      DeleteTaskPreserves(tasks0, users0, id);
    }
  }
}
