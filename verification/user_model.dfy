/** The User record of the user schema. */
module UserModel {

  import opened Common
  import opened Js

  /** A stored user: a name, an email unique among users, and the ids of the tasks
      pending against them. `dateCreated` is not modelled. */
  datatype User = User(name: string, email: string, pendingTasks: seq<Id>)

  /** `new User({...})`: `pendingTasks` defaults to the empty list. */
  function NewUser(name: string, email: string, pendingTasks: Option<seq<Id>>): (u: User)
    ensures u.name == name && u.email == email
    ensures u.pendingTasks == (if pendingTasks.Some? then pendingTasks.value else [])
  {
    User(name, email, match pendingTasks case Some(p) => p case None => [])
  }

  /** The schema's `required` fields: name and email are not empty. */
  predicate MeetsSchema(u: User): (b: bool)
    // the validator accepts exactly what the handlers' `!name || !email` test lets through
    ensures b <==> Truthy(Str(u.name)) && Truthy(Str(u.email))
  {
    u.name != "" && u.email != ""
  }

  /** The schema's `unique` index on email. */
  ghost predicate UniqueEmails(users: map<Id, User>): (b: bool)
    // no user's email is taken by another user
    ensures b <==> forall id :: id in users ==> !EmailTaken(users, users[id].email, Some(id))
  {
    forall a, b :: a in users && b in users && users[a].email == users[b].email ==> a == b
  }

  /** Some user other than `except` already has `email` (the unique-index lookup). */
  predicate EmailTaken(users: map<Id, User>, email: string, except: Option<Id>): (b: bool)
    // the email is one of those the other users hold
    ensures b <==> email in (set other | other in users && Some(other) != except :: users[other].email)
  {
    exists other :: other in users && Some(other) != except && users[other].email == email
  }

  /** Under the unique index no other user has a user's own email, which is why the
      update handler looks the email up only when it changes. */
  lemma OwnEmailFree(users: map<Id, User>, id: Id)
    requires UniqueEmails(users) && id in users
    ensures !EmailTaken(users, users[id].email, Some(id))
  {
  }
}
