/** The single-document and bulk writes the routes issue to the two collections,
    one function per MongoDB call. */
module Writes {

  import opened Common
  import opened Lists
  import opened TaskModel
  import opened UserModel

  /** `User.findByIdAndUpdate(uid, { $pull: { pendingTasks: tid } })`: every occurrence
      of `tid` leaves that user's list; a missing user means nothing changes. */
  function PullFromUser(users: map<Id, User>, uid: Id, tid: Id): (r: map<Id, User>)
    ensures r.Keys == users.Keys
    ensures forall v :: v in users && v != uid ==> r[v] == users[v]
    ensures uid in users ==>
      r[uid] == users[uid].(pendingTasks := Without(users[uid].pendingTasks, {tid}))
    ensures forall v :: v in users ==> r[v].name == users[v].name && r[v].email == users[v].email
    ensures uid in r ==> tid !in r[uid].pendingTasks
  {
    if uid in users then
      users[uid := users[uid].(pendingTasks := Without(users[uid].pendingTasks, {tid}))]
    else
      users
  }

  /** `User.findByIdAndUpdate(uid, { $addToSet: { pendingTasks: tid } })`: `tid` is listed
      afterwards and appears at most once more than before; a missing user means nothing changes. */
  function AddToSetForUser(users: map<Id, User>, uid: Id, tid: Id): (r: map<Id, User>)
    ensures r.Keys == users.Keys
    ensures forall v :: v in users && v != uid ==> r[v] == users[v]
    ensures uid in users ==>
      r[uid] == users[uid].(pendingTasks := AddToSet(users[uid].pendingTasks, tid))
    ensures forall v :: v in users ==> r[v].name == users[v].name && r[v].email == users[v].email
    ensures uid in r ==> tid in r[uid].pendingTasks
  {
    if uid in users then
      users[uid := users[uid].(pendingTasks := AddToSet(users[uid].pendingTasks, tid))]
    else
      users
  }

  /** `Task.updateMany({ _id: { $in: ids } }, { $set: { assignedUser, assignedUserName } })`. */
  function AssignMany(tasks: map<Id, Task>, ids: set<Id>, owner: Id, ownerName: string): (r: map<Id, Task>)
    ensures r.Keys == tasks.Keys
    ensures forall t :: t in tasks && t in ids ==>
      r[t] == tasks[t].(assignedUser := owner, assignedUserName := ownerName)
    ensures forall t :: t in tasks && t !in ids ==> r[t] == tasks[t]
  {
    map t | t in tasks :: if t in ids then tasks[t].(assignedUser := owner, assignedUserName := ownerName) else tasks[t]
  }

  /** `Task.updateMany({ assignedUser: uid }, { $set: { assignedUserName: name } })`. */
  function RestampOwnedBy(tasks: map<Id, Task>, uid: Id, name: string): (r: map<Id, Task>)
    ensures r.Keys == tasks.Keys
    ensures forall t :: t in tasks && tasks[t].assignedUser == uid ==>
      r[t] == tasks[t].(assignedUserName := name)
    ensures forall t :: t in tasks && tasks[t].assignedUser != uid ==> r[t] == tasks[t]
  {
    map t | t in tasks :: if tasks[t].assignedUser == uid then tasks[t].(assignedUserName := name) else tasks[t]
  }

  /** `Task.updateMany({ assignedUser: uid }, { $set: { assignedUser: '', assignedUserName: 'unassigned' } })`. */
  function ClearOwnedBy(tasks: map<Id, Task>, uid: Id): (r: map<Id, Task>)
    ensures r.Keys == tasks.Keys
    ensures forall t :: t in tasks && tasks[t].assignedUser == uid ==>
      r[t] == tasks[t].(assignedUser := NoOwner, assignedUserName := Unassigned)
    ensures forall t :: t in tasks && tasks[t].assignedUser != uid ==> r[t] == tasks[t]
  {
    map t | t in tasks ::
      if tasks[t].assignedUser == uid then tasks[t].(assignedUser := NoOwner, assignedUserName := Unassigned)
      else tasks[t]
  }

  /** An `updateMany` over no ids leaves the collection as it was. */
  lemma AssignNone(tasks: map<Id, Task>, owner: Id, ownerName: string)
    ensures AssignMany(tasks, {}, owner, ownerName) == tasks
  {
  }
}
