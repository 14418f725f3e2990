/** The agreement the six handlers keep between the two collections: a task's owner
    lists it exactly while it is open, a list names only open tasks its user owns,
    every owned task carries its owner's current name, lists are sets and emails are
    unique. Each lemma shows that one handler's writes keep all of it. */
module Coherence {

  import opened Common
  import opened Lists
  import opened TaskModel
  import opened UserModel
  import opened Writes
  import opened TaskHelpers
  import opened UserHelpers

  /** An owned task's owner exists, and lists the task exactly while it is not completed. */
  ghost predicate OwnerListed(tasks: map<Id, Task>, users: map<Id, User>)
  {
    forall tid :: tid in tasks && tasks[tid].assignedUser != NoOwner ==>
      tasks[tid].assignedUser in users &&
      (tid in users[tasks[tid].assignedUser].pendingTasks <==> !tasks[tid].completed)
  }

  /** Every listed id names a stored, open task owned by the listing user. */
  ghost predicate PendingBacked(tasks: map<Id, Task>, users: map<Id, User>)
  {
    forall uid, x :: uid in users && x in users[uid].pendingTasks ==>
      x in tasks && !tasks[x].completed && tasks[x].assignedUser == uid
  }

  /** A stored task has the name its schema requires, and its cached `assignedUserName`
      is 'unassigned' without an owner and the owner's name otherwise. */
  ghost predicate NamesCurrent(tasks: map<Id, Task>, users: map<Id, User>)
  {
    forall tid :: tid in tasks ==>
      TaskModel.MeetsSchema(tasks[tid]) &&
      (tasks[tid].assignedUser == NoOwner ==> tasks[tid].assignedUserName == Unassigned) &&
      (tasks[tid].assignedUser in users ==> tasks[tid].assignedUserName == users[tasks[tid].assignedUser].name)
  }

  /** A stored user has the name and email its schema requires, and lists no id twice. */
  ghost predicate UsersWellFormed(users: map<Id, User>)
  {
    forall uid :: uid in users ==> UserModel.MeetsSchema(users[uid]) && NoDuplicates(users[uid].pendingTasks)
  }

  ghost predicate Coherent(tasks: map<Id, Task>, users: map<Id, User>)
  {
    && NoOwner !in users
    && OwnerListed(tasks, users)
    && PendingBacked(tasks, users)
    && NamesCurrent(tasks, users)
    && UsersWellFormed(users)
    && UniqueEmails(users)
  }

  /** In a coherent store no task is pending for two users. */
  lemma SingleList(tasks: map<Id, Task>, users: map<Id, User>, x: Id, u: Id, v: Id)
    requires PendingBacked(tasks, users)
    requires u in users && v in users && x in users[u].pendingTasks && x in users[v].pendingTasks
    ensures u == v
  {
    assert tasks[x].assignedUser == u;
  }

  /** Tasks that kept the schema's owner defaults (no `assignedUser`, `assignedUserName`
      'unassigned') are coherent with an empty user collection; with no tasks either,
      this is the empty store. */
  lemma UnownedCoherent(tasks: map<Id, Task>)
    requires forall t :: t in tasks ==>
      tasks[t].name != "" &&
      tasks[t] == NewTask(tasks[t].name, tasks[t].deadline, Some(tasks[t].description), Some(tasks[t].completed), None, None)
    ensures Coherent(tasks, map[])
  {
    forall t | t in tasks
      ensures tasks[t].assignedUser == NoOwner && tasks[t].assignedUserName == Unassigned
    {
      var task := tasks[t];
      assert task.assignedUser == NewTask(task.name, task.deadline, Some(task.description), Some(task.completed), None, None).assignedUser;
    }
  }

  /** Task create and update: saving `t` under `id` and then issuing the pending-list
      writes of updatePendingTasksForAssignment from the previous owner (none for a new
      task) keeps the store coherent, provided `t` was stamped with its owner's name. */
  lemma WriteTaskPreserves(tasks: map<Id, Task>, users: map<Id, User>, id: Id, t: Task)
    requires Coherent(tasks, users)
    requires TaskModel.MeetsSchema(t)
    requires t.assignedUser == NoOwner ==> t.assignedUserName == Unassigned
    requires t.assignedUser != NoOwner ==> t.assignedUser in users && t.assignedUserName == users[t.assignedUser].name
    ensures var previous := if id in tasks then tasks[id].assignedUser else NoOwner;
      Coherent(tasks[id := t], Reassign(users, id, previous, t.assignedUser, t.completed))
  {
    var previous := if id in tasks then tasks[id].assignedUser else NoOwner;
    var us := Reassign(users, id, previous, t.assignedUser, t.completed);
    WriteTaskOwnerListed(tasks, users, id, t);
    WriteTaskPendingBacked(tasks, users, id, t);
    WriteTaskNamesCurrent(tasks, users, id, t);
    assert UsersWellFormed(us);
    assert UniqueEmails(us) by {
      forall a, b | a in us && b in us && us[a].email == us[b].email ensures a == b {
        assert users[a].email == users[b].email;
      }
    }
  }

  lemma WriteTaskOwnerListed(tasks: map<Id, Task>, users: map<Id, User>, id: Id, t: Task)
    requires OwnerListed(tasks, users)
    requires t.assignedUser != NoOwner ==> t.assignedUser in users
    ensures var previous := if id in tasks then tasks[id].assignedUser else NoOwner;
      OwnerListed(tasks[id := t], Reassign(users, id, previous, t.assignedUser, t.completed))
  {
    var previous := if id in tasks then tasks[id].assignedUser else NoOwner;
    var ts := tasks[id := t];
    var us := Reassign(users, id, previous, t.assignedUser, t.completed);
    forall tid | tid in ts && ts[tid].assignedUser != NoOwner
      ensures ts[tid].assignedUser in us && (tid in us[ts[tid].assignedUser].pendingTasks <==> !ts[tid].completed)
    {
      if tid != id {
        var owner := tasks[tid].assignedUser;
        assert owner in users && (tid in users[owner].pendingTasks <==> !tasks[tid].completed);
      }
    }
  }

  lemma WriteTaskPendingBacked(tasks: map<Id, Task>, users: map<Id, User>, id: Id, t: Task)
    requires NoOwner !in users && PendingBacked(tasks, users)
    ensures var previous := if id in tasks then tasks[id].assignedUser else NoOwner;
      PendingBacked(tasks[id := t], Reassign(users, id, previous, t.assignedUser, t.completed))
  {
    var previous := if id in tasks then tasks[id].assignedUser else NoOwner;
    var ts := tasks[id := t];
    var us := Reassign(users, id, previous, t.assignedUser, t.completed);
    forall uid, x | uid in us && x in us[uid].pendingTasks
      ensures x in ts && !ts[x].completed && ts[x].assignedUser == uid
    {
      if x != id {
        assert x in users[uid].pendingTasks;
      }
    }
  }

  lemma WriteTaskNamesCurrent(tasks: map<Id, Task>, users: map<Id, User>, id: Id, t: Task)
    requires NoOwner !in users && NamesCurrent(tasks, users)
    requires TaskModel.MeetsSchema(t)
    requires t.assignedUser == NoOwner ==> t.assignedUserName == Unassigned
    requires t.assignedUser != NoOwner ==> t.assignedUser in users && t.assignedUserName == users[t.assignedUser].name
    ensures var previous := if id in tasks then tasks[id].assignedUser else NoOwner;
      NamesCurrent(tasks[id := t], Reassign(users, id, previous, t.assignedUser, t.completed))
  {
    var previous := if id in tasks then tasks[id].assignedUser else NoOwner;
    var ts := tasks[id := t];
    var us := Reassign(users, id, previous, t.assignedUser, t.completed);
    forall tid | tid in ts
      ensures TaskModel.MeetsSchema(ts[tid]) &&
        (ts[tid].assignedUser == NoOwner ==> ts[tid].assignedUserName == Unassigned) &&
        (ts[tid].assignedUser in us ==> ts[tid].assignedUserName == us[ts[tid].assignedUser].name)
    {
      if tid != id && ts[tid].assignedUser in us {
        assert us[ts[tid].assignedUser].name == users[ts[tid].assignedUser].name;
      }
    }
  }

  /** Task delete: removing the task and pulling its id from its recorded owner keeps
      the store coherent. */
  lemma DeleteTaskPreserves(tasks: map<Id, Task>, users: map<Id, User>, id: Id)
    requires Coherent(tasks, users) && id in tasks
    ensures Coherent(tasks - {id}, PullFromOwner(tasks, users, id))
  {
    var us := PullFromOwner(tasks, users, id);
    DeleteTaskPendingBacked(tasks, users, id);
    DeleteTaskOwnerListed(tasks, users, id);
    DeleteTaskNamesCurrent(tasks, users, id);
    assert UsersWellFormed(us);
    assert UniqueEmails(us) by {
      forall a, b | a in us && b in us && us[a].email == us[b].email ensures a == b {
        assert users[a].email == users[b].email;
      }
    }
  }

  lemma DeleteTaskPendingBacked(tasks: map<Id, Task>, users: map<Id, User>, id: Id)
    requires NoOwner !in users && PendingBacked(tasks, users) && id in tasks
    ensures PendingBacked(tasks - {id}, PullFromOwner(tasks, users, id))
  {
    var ts := tasks - {id};
    var us := PullFromOwner(tasks, users, id);
    forall uid, x | uid in us && x in us[uid].pendingTasks
      ensures x in ts && !ts[x].completed && ts[x].assignedUser == uid
    {
      assert x in users[uid].pendingTasks;
    }
  }

  lemma DeleteTaskOwnerListed(tasks: map<Id, Task>, users: map<Id, User>, id: Id)
    requires OwnerListed(tasks, users) && id in tasks
    ensures OwnerListed(tasks - {id}, PullFromOwner(tasks, users, id))
  {
    var ts := tasks - {id};
    var us := PullFromOwner(tasks, users, id);
    forall tid | tid in ts && ts[tid].assignedUser != NoOwner
      ensures ts[tid].assignedUser in us && (tid in us[ts[tid].assignedUser].pendingTasks <==> !ts[tid].completed)
    {
      var owner := tasks[tid].assignedUser;
      assert owner in users && (tid in users[owner].pendingTasks <==> !tasks[tid].completed);
    }
  }

  lemma DeleteTaskNamesCurrent(tasks: map<Id, Task>, users: map<Id, User>, id: Id)
    requires NamesCurrent(tasks, users) && id in tasks
    ensures NamesCurrent(tasks - {id}, PullFromOwner(tasks, users, id))
  {
    var ts := tasks - {id};
    var us := PullFromOwner(tasks, users, id);
    forall tid | tid in ts && ts[tid].assignedUser in us
      ensures ts[tid].assignedUserName == us[ts[tid].assignedUser].name
    {
      assert us[ts[tid].assignedUser].name == users[ts[tid].assignedUser].name;
    }
  }

  /** The list a user had before a create (none) or an update. */
  function PreviousList(users: map<Id, User>, uid: Id): seq<Id>
  {
    if uid in users then users[uid].pendingTasks else []
  }

  /** User create and update: with a validated list of open tasks and an email no other
      user has, unassigning the dropped tasks, taking the listed ones from their previous
      owners, saving the user and assigning and re-stamping its tasks keeps the store
      coherent. A new user has no previous list. */
  lemma AdoptPreserves(tasks: map<Id, Task>, users: map<Id, User>, uid: Id, user: User)
    requires Coherent(tasks, users)
    requires uid != NoOwner
    requires UserModel.MeetsSchema(user)
    requires NoDuplicates(user.pendingTasks)
    requires forall x :: x in user.pendingTasks ==> x in tasks && !tasks[x].completed
    requires !EmailTaken(users, user.email, Some(uid))
    ensures Coherent(AdoptTasks(tasks, uid, PreviousList(users, uid), user.pendingTasks, user.name),
                     AdoptUsers(users, tasks, uid, user))
  {
    AdoptOwnerListed(tasks, users, uid, user);
    AdoptPendingBacked(tasks, users, uid, user);
    AdoptNamesCurrent(tasks, users, uid, user);
    AdoptUsersWellFormed(tasks, users, uid, user);
    AdoptUniqueEmails(tasks, users, uid, user);
  }

  lemma AdoptUsersWellFormed(tasks: map<Id, Task>, users: map<Id, User>, uid: Id, user: User)
    requires UsersWellFormed(users)
    requires UserModel.MeetsSchema(user) && NoDuplicates(user.pendingTasks)
    requires forall x :: x in user.pendingTasks ==> x in tasks
    ensures UsersWellFormed(AdoptUsers(users, tasks, uid, user))
  {
    var us := AdoptUsers(users, tasks, uid, user);
    forall v | v in us ensures UserModel.MeetsSchema(us[v]) && NoDuplicates(us[v].pendingTasks) {
      if v != uid {
        AdoptUsersDistinct(users, tasks, uid, user, v);
      }
    }
  }

  lemma AdoptUniqueEmails(tasks: map<Id, Task>, users: map<Id, User>, uid: Id, user: User)
    requires UniqueEmails(users)
    requires !EmailTaken(users, user.email, Some(uid))
    requires forall x :: x in user.pendingTasks ==> x in tasks
    ensures UniqueEmails(AdoptUsers(users, tasks, uid, user))
  {
    var us := AdoptUsers(users, tasks, uid, user);
    forall a, b | a in us && b in us && us[a].email == us[b].email ensures a == b {
      if a != uid && b != uid {
        assert users[a].email == users[b].email;
      }
    }
  }

  lemma AdoptOwnerListed(tasks: map<Id, Task>, users: map<Id, User>, uid: Id, user: User)
    requires OwnerListed(tasks, users)
    requires uid != NoOwner
    requires forall x :: x in user.pendingTasks ==> x in tasks && !tasks[x].completed
    ensures OwnerListed(AdoptTasks(tasks, uid, PreviousList(users, uid), user.pendingTasks, user.name),
                        AdoptUsers(users, tasks, uid, user))
  {
    var ts := AdoptTasks(tasks, uid, PreviousList(users, uid), user.pendingTasks, user.name);
    var us := AdoptUsers(users, tasks, uid, user);
    forall tid | tid in ts && ts[tid].assignedUser != NoOwner
      ensures ts[tid].assignedUser in us && (tid in us[ts[tid].assignedUser].pendingTasks <==> !ts[tid].completed)
    {
      AdoptOwnerListedAt(tasks, users, uid, user, tid);
    }
  }

  lemma AdoptOwnerListedAt(tasks: map<Id, Task>, users: map<Id, User>, uid: Id, user: User, tid: Id)
    requires OwnerListed(tasks, users)
    requires uid != NoOwner
    requires forall x :: x in user.pendingTasks ==> x in tasks && !tasks[x].completed
    requires tid in tasks
    ensures var ts := AdoptTasks(tasks, uid, PreviousList(users, uid), user.pendingTasks, user.name);
      var us := AdoptUsers(users, tasks, uid, user);
      ts[tid].assignedUser != NoOwner ==>
        ts[tid].assignedUser in us && (tid in us[ts[tid].assignedUser].pendingTasks <==> !ts[tid].completed)
  {
    if tid !in user.pendingTasks && tid !in PreviousList(users, uid) && tasks[tid].assignedUser != NoOwner {
      var owner := tasks[tid].assignedUser;
      assert owner in users && (tid in users[owner].pendingTasks <==> !tasks[tid].completed);
      if owner != uid {
        AdoptUsersListed(users, tasks, uid, user, owner, tid);
      }
    }
  }

  lemma AdoptPendingBacked(tasks: map<Id, Task>, users: map<Id, User>, uid: Id, user: User)
    requires NoOwner !in users && PendingBacked(tasks, users)
    requires uid != NoOwner
    requires forall x :: x in user.pendingTasks ==> x in tasks && !tasks[x].completed
    ensures PendingBacked(AdoptTasks(tasks, uid, PreviousList(users, uid), user.pendingTasks, user.name),
                          AdoptUsers(users, tasks, uid, user))
  {
    var us := AdoptUsers(users, tasks, uid, user);
    forall v | v in us {
      AdoptPendingBackedBy(tasks, users, uid, user, v);
    }
  }

  /** What one user lists after the adoption is backed by the tasks after it. */
  lemma AdoptPendingBackedBy(tasks: map<Id, Task>, users: map<Id, User>, uid: Id, user: User, v: Id)
    requires NoOwner !in users && PendingBacked(tasks, users)
    requires uid != NoOwner
    requires forall x :: x in user.pendingTasks ==> x in tasks && !tasks[x].completed
    requires v in AdoptUsers(users, tasks, uid, user)
    ensures var ts := AdoptTasks(tasks, uid, PreviousList(users, uid), user.pendingTasks, user.name);
      var us := AdoptUsers(users, tasks, uid, user);
      forall x :: x in us[v].pendingTasks ==> x in ts && !ts[x].completed && ts[x].assignedUser == v
  {
    var us := AdoptUsers(users, tasks, uid, user);
    if v != uid {
      var ts := AdoptTasks(tasks, uid, PreviousList(users, uid), user.pendingTasks, user.name);
      forall x | x in us[v].pendingTasks
        ensures x in ts && !ts[x].completed && ts[x].assignedUser == v
      {
        AdoptUsersListed(users, tasks, uid, user, v, x);
        AdoptKeepsOthers(tasks, users, uid, user, v, x);
      }
    }
  }

  /** A task still listed by another user after the adoption is untouched by it. */
  lemma AdoptKeepsOthers(tasks: map<Id, Task>, users: map<Id, User>, uid: Id, user: User, v: Id, x: Id)
    requires NoOwner !in users && PendingBacked(tasks, users)
    requires forall x :: x in user.pendingTasks ==> x in tasks
    requires uid != NoOwner
    requires v in users && v != uid && x in users[v].pendingTasks
    requires !(x in user.pendingTasks && tasks[x].assignedUser == v && v != NoOwner)
    ensures var ts := AdoptTasks(tasks, uid, PreviousList(users, uid), user.pendingTasks, user.name);
      x in ts && ts[x] == tasks[x] && !tasks[x].completed && tasks[x].assignedUser == v
  {
    assert x in tasks && tasks[x].assignedUser == v;
    assert x !in PreviousList(users, uid);
  }

  lemma AdoptNamesCurrent(tasks: map<Id, Task>, users: map<Id, User>, uid: Id, user: User)
    requires NoOwner !in users && NamesCurrent(tasks, users)
    requires uid != NoOwner
    requires UserModel.MeetsSchema(user)
    requires forall x :: x in user.pendingTasks ==> x in tasks
    ensures NamesCurrent(AdoptTasks(tasks, uid, PreviousList(users, uid), user.pendingTasks, user.name),
                         AdoptUsers(users, tasks, uid, user))
  {
    var ts := AdoptTasks(tasks, uid, PreviousList(users, uid), user.pendingTasks, user.name);
    var us := AdoptUsers(users, tasks, uid, user);
    forall tid | tid in ts
      ensures TaskModel.MeetsSchema(ts[tid])
      ensures ts[tid].assignedUser == NoOwner ==> ts[tid].assignedUserName == Unassigned
      ensures ts[tid].assignedUser in us ==> ts[tid].assignedUserName == us[ts[tid].assignedUser].name
    {
      AdoptNamesCurrentAt(tasks, users, uid, user, tid);
    }
  }

  lemma AdoptNamesCurrentAt(tasks: map<Id, Task>, users: map<Id, User>, uid: Id, user: User, tid: Id)
    requires NoOwner !in users && NamesCurrent(tasks, users)
    requires uid != NoOwner
    requires UserModel.MeetsSchema(user)
    requires forall x :: x in user.pendingTasks ==> x in tasks
    requires tid in tasks
    ensures var ts := AdoptTasks(tasks, uid, PreviousList(users, uid), user.pendingTasks, user.name);
      var us := AdoptUsers(users, tasks, uid, user);
      && TaskModel.MeetsSchema(ts[tid])
      && (ts[tid].assignedUser == NoOwner ==> ts[tid].assignedUserName == Unassigned)
      && (ts[tid].assignedUser in us ==> ts[tid].assignedUserName == us[ts[tid].assignedUser].name)
  {
    var t := tasks[tid];
    assert TaskModel.MeetsSchema(t);
    var us := AdoptUsers(users, tasks, uid, user);
    if tid in user.pendingTasks || tid in PreviousList(users, uid) || t.assignedUser == uid {
      // re-stamped with the new name, or unassigned
    } else if t.assignedUser in users {
      assert us[t.assignedUser].name == users[t.assignedUser].name;
    }
  }

  /** User delete: unassigning the tasks it listed and the tasks it owns, then removing
      the user, keeps the store coherent. */
  lemma DeleteUserPreserves(tasks: map<Id, Task>, users: map<Id, User>, uid: Id)
    requires Coherent(tasks, users) && uid in users
    ensures Coherent(ReleaseTasks(tasks, uid, users[uid].pendingTasks), users - {uid})
  {
    var us := users - {uid};
    DeleteUserPendingBacked(tasks, users, uid);
    DeleteUserOwnerListed(tasks, users, uid);
    DeleteUserNamesCurrent(tasks, users, uid);
    assert UsersWellFormed(us);
    assert UniqueEmails(us);
  }

  lemma DeleteUserPendingBacked(tasks: map<Id, Task>, users: map<Id, User>, uid: Id)
    requires PendingBacked(tasks, users) && uid in users
    ensures PendingBacked(ReleaseTasks(tasks, uid, users[uid].pendingTasks), users - {uid})
  {
    var ts := ReleaseTasks(tasks, uid, users[uid].pendingTasks);
    var us := users - {uid};
    forall v, x | v in us && x in us[v].pendingTasks
      ensures x in ts && !ts[x].completed && ts[x].assignedUser == v
    {
      assert x in tasks && tasks[x].assignedUser == v;
      assert x !in users[uid].pendingTasks;
    }
  }

  lemma DeleteUserOwnerListed(tasks: map<Id, Task>, users: map<Id, User>, uid: Id)
    requires NoOwner !in users && OwnerListed(tasks, users) && PendingBacked(tasks, users) && uid in users
    ensures OwnerListed(ReleaseTasks(tasks, uid, users[uid].pendingTasks), users - {uid})
  {
    var ts := ReleaseTasks(tasks, uid, users[uid].pendingTasks);
    var us := users - {uid};
    forall tid | tid in ts && ts[tid].assignedUser != NoOwner
      ensures ts[tid].assignedUser in us && (tid in us[ts[tid].assignedUser].pendingTasks <==> !ts[tid].completed)
    {
      assert tid !in users[uid].pendingTasks && tasks[tid].assignedUser != uid;
      assert ts[tid] == tasks[tid];
    }
  }

  lemma DeleteUserNamesCurrent(tasks: map<Id, Task>, users: map<Id, User>, uid: Id)
    requires NoOwner !in users && NamesCurrent(tasks, users) && uid in users
    ensures NamesCurrent(ReleaseTasks(tasks, uid, users[uid].pendingTasks), users - {uid})
  {
  }
}
