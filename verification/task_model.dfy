/** The Task record of the task schema, with its field defaults. */
module TaskModel {

  import opened Common
  import opened Js

  /** A deadline as the date parser produces it: milliseconds since the epoch. */
  type Date = int

  /** The `assignedUserName` sentinel of a task without an owner. */
  const Unassigned: string := "unassigned"

  /** A stored task. `assignedUser` is `NoOwner` or the id of one user;
      `assignedUserName` caches that user's name. `dateCreated` is not modelled. */
  datatype Task = Task(
    name: string,
    description: string,
    deadline: Date,
    completed: bool,
    assignedUser: Id,
    assignedUserName: string)

  /** `new Task({...})`: a field left out takes the schema default. */
  function NewTask(
    name: string,
    deadline: Date,
    description: Option<string>,
    completed: Option<bool>,
    assignedUser: Option<Id>,
    assignedUserName: Option<string>): (t: Task)
    ensures t.name == name && t.deadline == deadline
    ensures t.description == (if description.Some? then description.value else "")
    ensures t.completed == (completed.Some? && completed.value)
    ensures t.assignedUser == (if assignedUser.Some? then assignedUser.value else NoOwner)
    ensures t.assignedUserName == (if assignedUserName.Some? then assignedUserName.value else Unassigned)
  {
    Task(
      name,
      (match description case Some(d) => d case None => ""),
      deadline,
      (match completed case Some(c) => c case None => false),
      (match assignedUser case Some(u) => u case None => NoOwner),
      (match assignedUserName case Some(n) => n case None => Unassigned))
  }

  /** The schema's `required` fields: a name that is not empty (the deadline is always
      present in this typed record). */
  predicate MeetsSchema(t: Task): (b: bool)
    // the validator accepts exactly what the handlers' `!name` test lets through
    ensures b <==> Truthy(Str(t.name))
  {
    t.name != ""
  }
}
