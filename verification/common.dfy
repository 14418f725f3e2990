/** Identifiers, optional values and the error results the route handlers send back. */
module Common {

  /** A record identifier as the routes see it: the string form of a store key.
      The empty string is the "no owner" sentinel of `assignedUser`. */
  type Id = string

  const NoOwner: Id := ""

  datatype Option<T> = None | Some(value: T)

  /** An HTTP error: status code and message; the JSON envelope around it is not modelled. */
  datatype Error = Error(status: int, message: string)

  datatype Result<T> = Ok(value: T) | Err(error: Error)

  const TaskNotFound: Error := Error(404, "Task not found")
  const UserNotFound: Error := Error(404, "User not found")
  const NameRequired: Error := Error(400, "Name is required")
  const NameAndEmailRequired: Error := Error(400, "Name and email are required")
  const EmailExists: Error := Error(400, "Email already exists")
  const AssignedUserNotFound: Error := Error(400, "Assigned user not found")
  const PendingTasksMissing: Error := Error(400, "One or more pending tasks do not exist")
  const PendingTasksCompleted: Error := Error(400, "Pending tasks must be incomplete")
  const DeadlineRequired: Error := Error(400, "Deadline is required")
  const DeadlineInvalid: Error := Error(400, "Deadline must be a valid date")
}
