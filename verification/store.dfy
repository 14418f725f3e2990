/** The two collections the routes work on, as one object whose fields the handlers
    reassign write by write. */
module Store {

  import opened Common
  import opened TaskModel
  import opened UserModel
  import opened Coherence

  /** The task and user collections, keyed by the string form of `_id`. */
  class Database {
    var tasks: map<Id, Task>
    var users: map<Id, User>

    /** The two collections agree on who owns which task (see `Coherence.Coherent`).
        Every handler keeps this; the helpers it calls pass through states that
        break it between their writes. */
    ghost predicate Valid()
      reads this
    {
      Coherent(tasks, users)
    }

    /** A fresh database has no tasks and no users. */
    constructor ()
      ensures Valid()
      ensures tasks == map[] && users == map[]
    {
      tasks := map[];
      users := map[];
      UnownedCoherent(map[]);
    }
  }
}
