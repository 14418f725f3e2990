/** The helpers at the top of the user routes: normalising and validating the
    requested `pendingTasks`, and the pulls that take those tasks away from their
    previous owners. */
module UserHelpers {

  import opened Common
  import opened Lists
  import opened TaskModel
  import opened UserModel
  import opened Writes

  /** `Array.isArray(p) ? Array.from(new Set(p.map(String))) : []`; `None` stands for a
      value that is not an array. The stored list never holds an id twice. */
  function NormalizePendingTasks(pendingTasks: Option<seq<Id>>): (r: seq<Id>)
    ensures NoDuplicates(r)
    ensures pendingTasks.None? ==> r == []
    ensures pendingTasks.Some? ==> forall x :: x in r <==> x in pendingTasks.value
  {
    match pendingTasks
    case None => []
    case Some(ids) => Dedup(ids)
  }

  /** Normalising an already normalised list changes nothing. */
  lemma NormalizeIdempotent(pendingTasks: Option<seq<Id>>)
    ensures var once := NormalizePendingTasks(pendingTasks);
      NormalizePendingTasks(Some(once)) == once
  {
    DedupOfDistinct(NormalizePendingTasks(pendingTasks));
  }

  /** The tasks `Task.find({ _id: { $in: ids } })` returns, each with its id. */
  function Snapshot(tasks: map<Id, Task>, ids: seq<Id>): (found: seq<(Id, Task)>)
    requires forall id :: id in ids ==> id in tasks
    ensures |found| == |ids|
    ensures forall k :: 0 <= k < |ids| ==> found[k] == (ids[k], tasks[ids[k]])
  {
    seq(|ids|, k requires 0 <= k < |ids| => (ids[k], tasks[ids[k]]))
  }

  /** `validatePendingTasks(ids)`: every id names a stored task and none of those tasks is
      completed. On success it returns the tasks it read, and it never writes. The list
      has no duplicates, as the routes normalise it first. */
  function ValidatePendingTasks(tasks: map<Id, Task>, ids: seq<Id>): (r: Result<seq<(Id, Task)>>)
    requires NoDuplicates(ids)
    ensures ids == [] ==> r == Ok([])
    ensures r == Err(PendingTasksMissing) <==> exists id :: id in ids && id !in tasks
    ensures r == Err(PendingTasksCompleted) <==>
      (forall id :: id in ids ==> id in tasks) && (exists id :: id in ids && tasks[id].completed)
    ensures r.Ok? <==> forall id :: id in ids ==> id in tasks && !tasks[id].completed
    ensures r.Ok? ==> r.value == Snapshot(tasks, ids)
  {
    if |ids| == 0 then
      Ok([])
    else
      var found := Filter(ids, id => id in tasks);
      if |found| != |ids| then
        Err(PendingTasksMissing)
      else if exists id :: id in found && tasks[id].completed then
        Err(PendingTasksCompleted)
      else
        Ok(Snapshot(tasks, found))
  }

  /** The ids removeTasksFromUsers pulls from user `uid`: those read tasks whose recorded
      owner is `uid`, when that owner is set and is not the user being saved. */
  function Stolen(found: seq<(Id, Task)>, uid: Id, current: Id): set<Id>
  {
    set p | p in found && p.1.assignedUser == uid && uid != NoOwner && uid != current :: p.0
  }

  /** The writes of `removeTasksFromUsers(found, current)`: every other owner of a read
      task loses that task's id, and nothing else changes. */
  function StealFrom(users: map<Id, User>, found: seq<(Id, Task)>, current: Id): (r: map<Id, User>)
    ensures r.Keys == users.Keys
    ensures forall uid :: uid in users ==>
      r[uid] == users[uid].(pendingTasks := Without(users[uid].pendingTasks, Stolen(found, uid, current)))
  {
    map uid | uid in users ::
      users[uid].(pendingTasks := Without(users[uid].pendingTasks, Stolen(found, uid, current)))
  }

  /** After the pulls a user keeps its name, email and set semantics, and lists exactly
      the ids it listed before minus those taken from it; the user being saved keeps
      its whole list. */
  lemma StealFromEffect(users: map<Id, User>, found: seq<(Id, Task)>, current: Id, uid: Id)
    requires uid in users
    ensures var r := StealFrom(users, found, current);
      && r[uid].name == users[uid].name && r[uid].email == users[uid].email
      && (forall x :: x in r[uid].pendingTasks <==> x in users[uid].pendingTasks && x !in Stolen(found, uid, current))
      && (NoDuplicates(users[uid].pendingTasks) ==> NoDuplicates(r[uid].pendingTasks))
      && (uid == current ==> r[uid] == users[uid])
  {
    if uid == current {
      assert Stolen(found, uid, current) == {};
      WithoutAbsent(users[uid].pendingTasks, {});
    }
  }

  /** The pulls leave every email where it was, so a duplicate-email check reads the
      same before and after them. */
  lemma StealKeepsEmails(users: map<Id, User>, found: seq<(Id, Task)>, current: Id, email: string, except: Option<Id>)
    ensures EmailTaken(StealFrom(users, found, current), email, except) == EmailTaken(users, email, except)
  {
    var r := StealFrom(users, found, current);
    if EmailTaken(users, email, except) {
      var other :| other in users && Some(other) != except && users[other].email == email;
      StealFromEffect(users, found, current, other);
    }
    if EmailTaken(r, email, except) {
      var other :| other in r && Some(other) != except && r[other].email == email;
      StealFromEffect(users, found, current, other);
    }
  }

  /** Which task ids a snapshot steals from user `uid`. */
  lemma StolenFromSnapshot(tasks: map<Id, Task>, ids: seq<Id>, uid: Id, current: Id, x: Id)
    requires forall id :: id in ids ==> id in tasks
    ensures x in Stolen(Snapshot(tasks, ids), uid, current) <==>
      x in ids && tasks[x].assignedUser == uid && uid != NoOwner && uid != current
  {
    var found := Snapshot(tasks, ids);
    if x in ids && tasks[x].assignedUser == uid && uid != NoOwner && uid != current {
      var k :| 0 <= k < |ids| && ids[k] == x;
      assert found[k] in found;
    }
  }

  /** Saving the current user before or after the pulls makes no difference, since the
      pulls never touch the current user. */
  lemma StealFromSkipsCurrent(users: map<Id, User>, found: seq<(Id, Task)>, current: Id, user: User)
    ensures StealFrom(users[current := user], found, current) == StealFrom(users, found, current)[current := user]
  {
    var lhs := StealFrom(users[current := user], found, current);
    var rhs := StealFrom(users, found, current)[current := user];
    assert lhs.Keys == rhs.Keys;
    forall uid | uid in lhs ensures lhs[uid] == rhs[uid] {
      if uid == current {
        var none := Stolen(found, current, current);
        assert none == {};
        WithoutAbsent(user.pendingTasks, none);
      } else {
        assert lhs[uid] == users[uid].(pendingTasks := Without(users[uid].pendingTasks, Stolen(found, uid, current)));
      }
    }
  }

  /** One more read task in the loop of removeTasksFromUsers is one more `$pull`. */
  lemma {:induction false} StealFromStep(users: map<Id, User>, found: seq<(Id, Task)>, i: nat, current: Id)
    requires i < |found|
    ensures StealFrom(users, found[..i + 1], current) ==
      if found[i].1.assignedUser != NoOwner && found[i].1.assignedUser != current then
        PullFromUser(StealFrom(users, found[..i], current), found[i].1.assignedUser, found[i].0)
      else
        StealFrom(users, found[..i], current)
  {
    var tid, owner := found[i].0, found[i].1.assignedUser;
    var before := StealFrom(users, found[..i], current);
    var after := StealFrom(users, found[..i + 1], current);
    forall uid | uid in users
      ensures after[uid] == if owner != NoOwner && owner != current && uid == owner
        then before[uid].(pendingTasks := Without(before[uid].pendingTasks, {tid}))
        else before[uid]
    {
      var was := Stolen(found[..i], uid, current);
      StolenStep(found, i, uid, current);
      if owner != NoOwner && owner != current && uid == owner {
        WithoutTwice(users[uid].pendingTasks, was, {tid});
      }
    }
  }

  /** One more read task steals at most its own id, from its owner only. */
  lemma StolenStep(found: seq<(Id, Task)>, i: nat, uid: Id, current: Id)
    requires i < |found|
    ensures Stolen(found[..i + 1], uid, current) ==
      if found[i].1.assignedUser == uid && uid != NoOwner && uid != current
      then Stolen(found[..i], uid, current) + {found[i].0}
      else Stolen(found[..i], uid, current)
  {
    assert found[..i + 1] == found[..i] + [found[i]];
  }

  /** Reading no tasks steals nothing. */
  lemma StealNothing(users: map<Id, User>, current: Id)
    ensures StealFrom(users, [], current) == users
  {
    forall uid | uid in users ensures StealFrom(users, [], current)[uid] == users[uid] {
      assert Stolen([], uid, current) == {};
      WithoutAbsent(users[uid].pendingTasks, {});
    }
  }

  /** What the writes of a user create or update make of one task: a listed task is
      assigned to `uid` under its name, a task dropped from the old list is unassigned,
      another task `uid` owns carries its name, and any other task is left as it was. */
  function Adopted(task: Task, t: Id, uid: Id, oldPending: seq<Id>, pending: seq<Id>, name: string): Task
  {
    if t in pending then task.(assignedUser := uid, assignedUserName := name)
    else if t in oldPending then task.(assignedUser := NoOwner, assignedUserName := Unassigned)
    else if task.assignedUser == uid then task.(assignedUserName := name)
    else task
  }

  /** The task writes of a successful user create or update, in order: the tasks dropped
      from the old list are unassigned (update only), the listed tasks are assigned to
      `uid`, and every task `uid` owns is re-stamped with its name. */
  function AdoptTasks(tasks: map<Id, Task>, uid: Id, oldPending: seq<Id>, pending: seq<Id>, name: string): (r: map<Id, Task>)
    requires uid != NoOwner
    ensures r.Keys == tasks.Keys
    ensures forall t :: t in tasks ==> r[t] == Adopted(tasks[t], t, uid, oldPending, pending, name)
  {
    var unassigned := AssignMany(tasks, (set x | x in oldPending && x !in pending), NoOwner, Unassigned);
    RestampOwnedBy(AssignMany(unassigned, (set x | x in pending), uid, name), uid, name)
  }

  /** The user writes of a successful user create or update: the pulls of
      removeTasksFromUsers, and the saved user document. */
  function AdoptUsers(users: map<Id, User>, tasks: map<Id, Task>, uid: Id, user: User): (r: map<Id, User>)
    requires forall id :: id in user.pendingTasks ==> id in tasks
    ensures r.Keys == users.Keys + {uid}
    ensures r[uid] == user
    ensures forall v :: v in users && v != uid ==>
      r[v].name == users[v].name && r[v].email == users[v].email
  {
    AdoptUsersKeeps(users, tasks, uid, user);
    StealFrom(users, Snapshot(tasks, user.pendingTasks), uid)[uid := user]
  }

  lemma AdoptUsersKeeps(users: map<Id, User>, tasks: map<Id, Task>, uid: Id, user: User)
    requires forall id :: id in user.pendingTasks ==> id in tasks
    ensures var r := StealFrom(users, Snapshot(tasks, user.pendingTasks), uid);
      forall v :: v in users && v != uid ==>
        r[v].name == users[v].name && r[v].email == users[v].email
  {
    var found := Snapshot(tasks, user.pendingTasks);
    forall v | v in users && v != uid
      ensures var r := StealFrom(users, found, uid);
        r[v].name == users[v].name && r[v].email == users[v].email
    {
      StealFromEffect(users, found, uid, v);
    }
  }

  /** Another user's list keeps listing each id at most once. */
  lemma AdoptUsersDistinct(users: map<Id, User>, tasks: map<Id, Task>, uid: Id, user: User, v: Id)
    requires forall id :: id in user.pendingTasks ==> id in tasks
    requires v in users && v != uid
    requires NoDuplicates(users[v].pendingTasks)
    ensures NoDuplicates(AdoptUsers(users, tasks, uid, user)[v].pendingTasks)
  {
    StealFromEffect(users, Snapshot(tasks, user.pendingTasks), uid, v);
  }

  /** Another user loses exactly the listed tasks it owned. */
  lemma AdoptUsersListed(users: map<Id, User>, tasks: map<Id, Task>, uid: Id, user: User, v: Id, x: Id)
    requires forall id :: id in user.pendingTasks ==> id in tasks
    requires v in users && v != uid
    ensures x in AdoptUsers(users, tasks, uid, user)[v].pendingTasks <==>
      x in users[v].pendingTasks && !(x in user.pendingTasks && tasks[x].assignedUser == v && v != NoOwner)
  {
    var found := Snapshot(tasks, user.pendingTasks);
    StealFromEffect(users, found, uid, v);
    StolenFromSnapshot(tasks, user.pendingTasks, v, uid, x);
  }

  /** The task writes of a user delete: the tasks it listed, then the tasks it owns,
      become unassigned. */
  function ReleaseTasks(tasks: map<Id, Task>, uid: Id, pending: seq<Id>): (r: map<Id, Task>)
    ensures r.Keys == tasks.Keys
    ensures forall t :: t in tasks && (t in pending || tasks[t].assignedUser == uid) ==>
      r[t] == tasks[t].(assignedUser := NoOwner, assignedUserName := Unassigned)
    ensures forall t :: t in tasks && t !in pending && tasks[t].assignedUser != uid ==> r[t] == tasks[t]
    ensures uid != NoOwner ==> forall t :: t in r ==> r[t].assignedUser != uid
  {
    ClearOwnedBy(AssignMany(tasks, (set x | x in pending), NoOwner, Unassigned), uid)
  }
}
