# Task–user assignment bookkeeping, modelled in Dafny

The system is a small REST API over two MongoDB collections, tasks and users. A task
records its owner twice: the task stores the owner's id (`assignedUser`) and a cached copy
of the owner's name (`assignedUserName`), and the owner's user document lists the task's id
in `pendingTasks` while the task is open. Six handlers write to both collections:
POST/PUT/DELETE on `/tasks` and on `/users`. None of them runs inside a transaction. Each
issues a fixed sequence of single-document and bulk writes.

The model has these parts:

- **Records and their defaults.** `Task` and `User` are datatypes. `NewTask` and `NewUser`
  apply the schema defaults. `ScrubIdentifiers` is the JSON transform both schemas install.
- **The store** is a class `Store.Database` with one map per collection. Its invariant
  `Valid()` is `Coherence.Coherent` (below): the constructor establishes it, and every
  handler keeps it. Each MongoDB write the handlers issue (`$pull`, `$addToSet`,
  `updateMany … $set`) is one function on those maps, in module `Writes`.
- **Request-field parsing** covers `parseBoolean` and `parseDeadline`, with JavaScript's
  `trim`, `toLowerCase`, truthiness and the `/^-?\d+$/` test spelled out in `Js`.
- **The helpers** `updatePendingTasksForAssignment`, `validatePendingTasks` and
  `removeTasksFromUsers` are specified by the functions `Reassign`, `ValidatePendingTasks`
  and `StealFrom`. The loop of `removeTasksFromUsers` is a method proved against
  `StealFrom`.
- **The six handlers** are methods on the store. A request that fails a check gets the
  handler's error with nothing written; otherwise the handler's writes are applied in the
  handler's order. PUT /users is the one exception: its save comes after the unassign and
  pull writes, so a save that fails returns an error with those writes left in place. The
  model has one cause of that failure, an email another user holds. The source has a
  second one, a name or email made only of white space (see "## Left out"). Each handler's `ensures` gives the new contents of both collections in
  every case.
- **`Coherence.Coherent`** is the agreement the handlers are meant to keep between the two
  collections:
  - the owner of an owned task exists, and lists the task exactly while it is open;
  - every listed id is an open task owned by the user that lists it;
  - every task carries its owner's current name, or `unassigned`;
  - names and emails are present, lists hold no duplicates, and emails are unique.

  For each handler a lemma proves that its writes on a coherent store leave it coherent,
  and the handler's own `ensures` states `old(db.Valid()) ==> db.Valid()`.

Two behaviours of the handlers are worth stating plainly:

- User create and update never fail with a conflict error for a listed task that another
  user owns. They take the task over instead: `removeTasksFromUsers` pulls it from its
  previous owner, and the user being saved takes it.
- A listed task id that names no stored task fails with status 400 ("One or more pending
  tasks do not exist"), not with 404.

## Model

| member | source | states |
|---|---|---|
| `Js.Trim` | routes/tasks.js:15 | The trimmed text starts and ends with a non-white-space character, and it is empty exactly when the input is all white space. |
| `Js.TrimPadded` | routes/tasks.js:15 | Trimming white space from around a word that has none at its ends gives back exactly that word. |
| `Js.TrimWithin` | routes/tasks.js:15 | For every string, trimming it with white-space padding around it gives the same result as trimming it alone. |
| `Js.TrimIdempotent` | routes/tasks.js:56 | Trimming twice is the same as trimming once. |
| `Js.TrimStartKeepsTail` | routes/tasks.js:15 | When a string is not all white space, trimming the start of that string followed by anything removes only the string's own leading white space. |
| `Js.TrimNotBlank` | routes/tasks.js:15-17 | The trimmed text of a string that is not all white space is not blank either. |
| `Js.ToLower` | routes/tasks.js:56 | Lower-casing maps the ASCII capitals only and keeps the length: no ASCII capital is left, and every other character stays as it was. |
| `Js.Truthy` | routes/tasks.js:65 | `Boolean(v)` is false exactly for undefined, null, false, 0, NaN and the empty string. |
| `Js.IsIntegerLiteral` | routes/tasks.js:23 | `/^-?\d+$/` accepts exactly one or more digits, or a minus sign followed by one or more digits. |
| `Js.IntegerValue` | routes/tasks.js:24 | `Number` of an integer literal is negative only after a minus sign, and never negative without one. |
| `Js.LeadingZeroIgnored` | routes/tasks.js:24 | A zero in front of the digits does not change the value `Number` reads. |
| `Js.LiteralUnpadded` | routes/tasks.js:23 | A string that passes `/^-?\d+$/` neither starts nor ends with white space. |
| `Js.IntTextRoundTrip` | routes/tasks.js:23-24 | For every integer, its decimal text passes `/^-?\d+$/`, and `Number` of that text gives the integer back. |
| `Lists.Without` | routes/tasks.js:70 | After `$pull`, an id is listed exactly when it was listed before and was not removed. The list does not grow and keeps set semantics. |
| `Lists.WithoutTwice` | routes/users.js:30-39 | Two successive pulls amount to one pull of both sets of ids. |
| `Lists.WithoutAbsent` | routes/tasks.js:75 | Pulling ids that are not listed leaves the list unchanged. |
| `Lists.AddToSet` | routes/tasks.js:77 | After `$addToSet`, the id is listed along with everything listed before. An id already present leaves the list unchanged, and set semantics are kept. |
| `Lists.AddToSetIdempotent` | routes/tasks.js:77 | Adding the same id twice is the same as adding it once. |
| `Lists.Dedup` | routes/users.js:78 | `Array.from(new Set(…))` lists each element of the input exactly once and nothing else. |
| `Lists.DedupOfDistinct` | routes/users.js:78 | De-duplicating a list that has no duplicates returns it unchanged, order included. |
| `Lists.DedupIdempotent` | routes/users.js:78 | De-duplicating twice is the same as de-duplicating once. |
| `Lists.Filter` | routes/users.js:10-11 | `filter` keeps exactly the elements the predicate accepts. The result is as long as the input exactly when the predicate accepts every element, and in that case it is the input. |
| `TaskModel.NewTask` | models/task.js:20-45 | Fields left out of a new task take the schema defaults: description `''`, completed `false`, assignedUser `''`, assignedUserName `'unassigned'`. The create handler passes every field, so `ReadTaskBody` states its record as `NewTask` with all fields given. |
| `UserModel.NewUser` | models/user.js:22-39 | A new user without `pendingTasks` starts with an empty list. The create handler always passes the list, and `CreateUser` states its record as `NewUser` with it. |
| `UserModel.EmailTaken` | routes/users.js:179-186 | The email is taken exactly when it is among the emails the other users hold. The same test stands for the unique index's rejection at save (routes/users.js:94-102, 212-220). |
| `UserModel.OwnEmailFree` | routes/users.js:179 | Under the unique index no other user holds a user's own email, so skipping the lookup for an unchanged email loses nothing. |
| `Store.Database.constructor` | models/task.js:56 | A new database holds empty task and user collections (the user collection is registered at models/user.js:51), and they satisfy `Valid()`. |
| `TaskModel.MeetsSchema` | models/task.js:21-25 | A task meets the schema's `required` name exactly when its name is truthy, the test the task handlers apply to the name they receive. |
| `UserModel.MeetsSchema` | models/user.js:23-33 | A user meets the schema's `required` name and email exactly when both are truthy, the test the user handlers apply before saving. |
| `UserModel.UniqueEmails` | models/user.js:28-33 | The `unique` index on email holds exactly when no user's email is taken by another user, in the sense of `EmailTaken`. |
| `Serialization.ScrubIdentifiers` | models/task.js:3-18 | Falsy values and non-objects come back unchanged. An object is transformed exactly when `toString` of its `_id` does not throw, and then `_id` and `__v` are gone, `id` holds the text of the old `_id`, and every other key keeps its value. When `toString` of `_id` throws, the transform throws. The user schema's copy of the transform (models/user.js:5-20) is the same. |
| `Serialization.ScrubIdempotent` | models/task.js:3-18 | Scrubbing an already scrubbed value changes nothing. |
| `Writes.PullFromUser` | routes/tasks.js:70 | `findByIdAndUpdate` with `$pull` removes the id from that user's list only. Names and emails stay as they were, and a missing user means no change. |
| `Writes.AddToSetForUser` | routes/tasks.js:77 | `findByIdAndUpdate` with `$addToSet` makes that user list the id and changes no other user. Names and emails stay as they were, and a missing user means no change. |
| `Writes.AssignMany` | routes/users.js:107-114 | `updateMany` over a set of ids sets owner and name on exactly those tasks. |
| `Writes.RestampOwnedBy` | routes/users.js:117-123 | `updateMany` by owner renames exactly the tasks that user owns. |
| `Writes.ClearOwnedBy` | routes/users.js:270-277 | `updateMany` by owner unassigns exactly the tasks that user owns. |
| `Writes.AssignNone` | routes/users.js:106 | Skipping the bulk write for an empty id list gives the same result as issuing it. |
| `TaskHelpers.ParseBoolean` | routes/tasks.js:46-66 | `undefined` gives the default and a boolean is returned as it is. The words true/1 and false/0, trimmed and in any case, give true and false. Any other string, and any other value, falls back to JavaScript truthiness. |
| `TaskHelpers.ParseBooleanWords` | routes/tasks.js:55-62 | The four words are read the same with any white space around them and in any letter case. |
| `TaskHelpers.ParseBooleanBlank` | routes/tasks.js:55-65 | A string of white space only is none of the words, so truthiness makes it true. |
| `TaskHelpers.ParseDeadline` | routes/tasks.js:5-44 | The deadline is missing exactly when it is undefined, null or a blank string. A non-finite number is invalid. Any other value is valid exactly when the date parser accepts what it is normalised to: the number for an integer literal, the trimmed text for other strings, the value itself otherwise. |
| `TaskHelpers.DateArgument` | routes/tasks.js:12-28 | A value that is not a string reaches the date parser unchanged. A string reaches it trimmed, as a finite number when the trimmed text is an integer literal. A text argument never has white space around it. |
| `TaskHelpers.ParseDeadlineReachesDate` | routes/tasks.js:30-43 | A value that is neither missing nor a non-finite number gets the date parser's answer. |
| `TaskHelpers.SameArgumentSameDeadline` | routes/tasks.js:36-43 | Two values normalised to the same date-parser argument get the same result. |
| `TaskHelpers.DeadlineTextAsNumber` | routes/tasks.js:14-28 | An epoch sent as text, with any white space around it, is parsed exactly like the number itself. |
| `TaskHelpers.DeadlinePaddingIgnored` | routes/tasks.js:14-28 | White space around a deadline string never changes the outcome. |
| `TaskHelpers.Reassign` | routes/tasks.js:68-80 | A previous owner that differs from the new owner loses the task. The new owner lists the task exactly while it is open, gaining it at most once. No other user and no other task id is touched, and names, emails and set semantics are kept. |
| `TaskHelpers.ReleaseFromOld` | routes/tasks.js:69-71 | The first write takes the task from a previous owner that differs from the new owner. No other list changes. |
| `TaskHelpers.ReassignAgain` | routes/tasks.js:68-80 | Running the writes again with the owner and completion the task now has changes nothing, so they are idempotent. |
| `TaskHelpers.PullAbsent` | routes/tasks.js:75 | `$pull` of an id the user does not list leaves the users unchanged. |
| `TaskHelpers.AddPresent` | routes/tasks.js:77 | `$addToSet` of an id the user already lists leaves the users unchanged. |
| `TaskHelpers.PullFromOwner` | routes/tasks.js:255-261 | Deleting a task pulls its id from its recorded owner only, and every other list is unchanged. |
| `UserHelpers.NormalizePendingTasks` | routes/users.js:78 | A value that is not an array gives the empty list. An array gives the same ids, each listed once. |
| `UserHelpers.NormalizeIdempotent` | routes/users.js:171 | Normalising an already normalised list returns it unchanged. |
| `UserHelpers.Snapshot` | routes/users.js:10 | The lookup returns one `(id, task)` pair per requested id, with that id's stored task. |
| `UserHelpers.ValidatePendingTasks` | routes/users.js:5-28 | The missing-task error happens exactly when some listed id has no task. The completed-task error happens exactly when every id resolves and one of the tasks is completed. Success happens exactly when every id names an open task, and returns the tasks it read. The empty list passes. |
| `UserHelpers.StealFrom` | routes/users.js:30-39 | Each user loses exactly the read tasks it was recorded as owning, unless it is the current user or the owner is empty. Nothing else changes. |
| `UserHelpers.StealFromEffect` | routes/users.js:30-39 | After the pulls, a user lists exactly what it listed before minus what was taken from it. Name, email and set semantics are kept, and the current user's document is unchanged. |
| `UserHelpers.StealFromStep` | routes/users.js:31-37 | One more task read by the loop amounts to one more `$pull` from that task's owner, or to no write at all. |
| `UserHelpers.StealNothing` | routes/users.js:31 | A loop over no tasks writes nothing. |
| `UserHelpers.StealKeepsEmails` | routes/users.js:206-220 | The pulls move no email, so the duplicate-email check at save reads the same before and after them. |
| `UserHelpers.StolenFromSnapshot` | routes/users.js:33 | A task id is taken from user `v` exactly when it was listed in the request and `v` was recorded as its non-empty owner, `v` not being the user being saved. |
| `UserHelpers.StealFromSkipsCurrent` | routes/users.js:94-104 | Saving the new user before the pulls gives the same result as saving it after them, because the pulls never touch the current user. |
| `UserHelpers.AdoptTasks` | routes/users.js:190-239 | After a user save, every listed task belongs to the user under its name. Each task dropped from the old list is unassigned. Every other task the user owns carries the new name, and all other tasks are unchanged. |
| `UserHelpers.AdoptUsers` | routes/users.js:206-213 | After the pulls and the save, the saved user is stored as sent, and every other user keeps its name and email. |
| `UserHelpers.AdoptUsersListed` | routes/users.js:30-39 | After the save, another user lists an id exactly when it listed it before and did not lose it as the recorded owner of a requested task. |
| `UserHelpers.ReleaseTasks` | routes/users.js:259-277 | Deleting a user unassigns every task it listed or owns and leaves every other task alone. Afterwards no task names the deleted user. |
| `Coherence.SingleList` | routes/users.js:30-39 | In a coherent store no task is pending for two users. |
| `Coherence.UnownedCoherent` | models/task.js:38-45 | Tasks that kept the schema's owner defaults (`''` and `'unassigned'`), with no users, form a coherent store. With no tasks this is the empty store the `Database` constructor starts from. |
| `Coherence.WriteTaskPreserves` | routes/tasks.js:141-154 | Saving a task stamped with its owner's name, followed by the pending-list writes, keeps a coherent store coherent. |
| `Coherence.WriteTaskOwnerListed` | routes/tasks.js:224-235 | After a task save the new owner lists the task exactly while it is open, and no other owner's listing changes. |
| `Coherence.WriteTaskPendingBacked` | routes/tasks.js:224-235 | After a task save no user lists the task unless it is that task's open owner. |
| `Coherence.WriteTaskNamesCurrent` | routes/tasks.js:224-235 | After a task save every task still carries its owner's current name. |
| `Coherence.DeleteTaskPreserves` | routes/tasks.js:255-261 | Deleting a task and pulling it from its owner keeps the store coherent. |
| `Coherence.DeleteTaskPendingBacked` | routes/tasks.js:255-261 | After a task delete no list names the deleted task. |
| `Coherence.DeleteTaskOwnerListed` | routes/tasks.js:257 | Deleting a task does not disturb any other task's owner listing. |
| `Coherence.DeleteTaskNamesCurrent` | routes/tasks.js:257 | The remaining tasks keep their owners' current names. |
| `Coherence.AdoptPreserves` | routes/users.js:190-239 | With validated open tasks and an email no other user has, a user create or update keeps the store coherent. |
| `Coherence.AdoptOwnerListed` | routes/users.js:206-213 | After a user save, every owned task is listed by its owner exactly while it is open. |
| `Coherence.AdoptPendingBacked` | routes/users.js:206-231 | After a user save, every listed id is an open task owned by the user that lists it. |
| `Coherence.AdoptNamesCurrent` | routes/users.js:222-239 | After a user save, every task carries its owner's current name. |
| `Coherence.AdoptUsersWellFormed` | routes/users.js:208-213 | After a user save, names and emails are present and no list holds an id twice. |
| `Coherence.AdoptUniqueEmails` | routes/users.js:212-220 | Saving a user whose email no other user has keeps emails unique. |
| `Coherence.DeleteUserPreserves` | routes/users.js:259-279 | Unassigning the user's tasks and removing the user keeps the store coherent. |
| `Coherence.DeleteUserPendingBacked` | routes/users.js:259-279 | After a user delete every remaining list still names only open tasks its user owns. |
| `Coherence.DeleteUserOwnerListed` | routes/users.js:270-277 | After a user delete no task is owned by the deleted user, and every other owner still lists its tasks exactly while they are open. |
| `Coherence.DeleteUserNamesCurrent` | routes/users.js:259-277 | After a user delete every task still carries its owner's current name, or `unassigned`. |
| `TaskRoutes.ReadTaskBody` | routes/tasks.js:117-139 | The deadline is checked first, then the name, then the named owner's existence, each with its own error. A body that passes all three checks is accepted. On success the record has the parsed deadline, the parsed completion, and the owner's name or `'unassigned'`. That record is `NewTask` with every field given. |
| `TaskRoutes.UpdatePendingTasksForAssignment` | routes/tasks.js:68-80 | The method's writes leave the users collection as `Reassign` specifies, and the tasks collection unchanged. |
| `TaskRoutes.CreateTask` | routes/tasks.js:115-164 | A rejected request writes nothing. On success the task is stored, its owner lists it exactly while it is open, and `Valid()` is kept, whatever the outcome. |
| `TaskRoutes.UpdateTask` | routes/tasks.js:192-245 | An unknown id gives 404 before any check. On success the previous owner loses the task when the owner changes, the new owner lists it exactly while it is open, and `Valid()` is kept, whatever the outcome. |
| `TaskRoutes.DeleteTask` | routes/tasks.js:247-271 | An unknown id gives 404. On success the task is gone and its id is pulled from its recorded owner. `Valid()` is kept whatever the outcome, and in a valid store no list names it afterwards. |
| `UserRoutes.RemoveTasksFromUsers` | routes/users.js:30-39 | The loop's pulls leave the users collection exactly as `StealFrom` specifies, and the tasks collection unchanged. |
| `UserRoutes.UnassignDropped` | routes/users.js:190-204 | Exactly the tasks dropped from the old list are unassigned. Skipping the write when nothing is dropped changes nothing. |
| `UserRoutes.AssignAndRestamp` | routes/users.js:222-239 | The listed tasks are assigned to the user, then every task the user owns is re-stamped with its name. |
| `UserRoutes.CreateUser` | routes/users.js:74-133 | The checks run in order (name and email, then the task list, then the email at save), and any rejection writes nothing. A request that passes the first two checks succeeds exactly when no user has its email. On success the user is `NewUser` of the fields sent and every listed task names it. `Valid()` is kept whatever the outcome, and in a valid store no other user still lists those tasks. |
| `UserRoutes.ReadUserUpdate` | routes/users.js:161-188 | The checks run in order: 404, then name and email, then the email (checked against other users only when it changes), then the task list. |
| `UserRoutes.UpdateUser` | routes/users.js:161-249 | A failing check writes nothing. Past the checks, only the save can fail, on an email another user has, and then the unassign and pull writes stay in place. On success dropped tasks are unassigned and owned tasks carry the new name. Apart from that email failure the update is all or nothing in the model, and `Valid()` is kept whatever the outcome. |
| `UserRoutes.ApplyUserUpdate` | routes/users.js:190-239 | The save succeeds exactly when no other user has the email. The new state is that of the writes issued up to that point. |
| `UserRoutes.DeleteUser` | routes/users.js:251-289 | An unknown id gives 404. On success the user is gone, its listed and owned tasks are unassigned, no task names it, and `Valid()` is kept whatever the outcome. |

## Left out

- The GET handlers and the query-parameter parsing of routes/utils.js (`where`, `sort`, `select`, `skip`, `limit`, `count`) are not modelled. They only read.
- The HTTP envelope is not modelled: response status for success, JSON body and `utils.handleError`. A handler returns the `Error(status, message)` it would send, or its result.
- `CastError` handling is not modelled. Ids are plain strings, so an id that is not a valid ObjectId is treated as one that names no document.
- `new Date(x)` and `isNaN(date.getTime())` are an oracle parameter `toDate`. Dates are integers (epoch milliseconds), so date arithmetic and time zones are out of scope.
- `toString()` on an `_id` is an oracle parameter `toText` of `ScrubIdentifiers`.
- Numbers are reals, not IEEE doubles. `Number(text)` is exact, so rounding of very long digit strings is not captured.
- Body fields `name`, `email`, `description` and `assignedUser` are taken as strings already passed through `String(…)` or `|| ''`. JavaScript's conversion of other value types to strings is not modelled.
- The schema's `trim: true` on name and email, applied at save, is not modelled. So a name of only spaces, which the schema validator would reject, passes the handler's check in the model. The `required` fields appear only as the invariant `MeetsSchema`.
- UserRoutes.UpdateUser: does not model the second way the late save fails. A name or email made only of white space passes `!name || !email` (routes/users.js:173), but `user.save()` (routes/users.js:213) trims it and the `required` validator rejects it, and the handler answers with status 500. By then the unassign and `$pull` writes (routes/users.js:195-206) are done. A task taken from another user then still names that user, who no longer lists it, so the source breaks the owner-lists-its-open-tasks agreement that the model's `Valid()` keeps. The model's update is all or nothing only for a name and email already trimmed. `CreateUser` is not affected, since its save comes before any write.
- `dateCreated` (default `Date.now`) is not modelled. It is a clock reading that no handler inspects.
- Identifiers the store assigns to new documents are method parameters (`newId`), required to be fresh and non-empty.
- Concurrency is not modelled. Each handler runs alone, and the interleaving of two requests between their writes is out of scope.
- Js.ToLower: maps the ASCII capitals only and keeps the length, while `toLowerCase` applies full Unicode case mapping, which can lengthen a string (U+0130 becomes two code units). For `parseBoolean` the outcome is the same: the only non-ASCII characters that lower-case to ASCII letters are U+0130 (to `i` and a combining dot) and U+212A (to `k`), and neither `i` nor `k` occurs in `true`, `false`, `1` or `0`.
- `Task.find({ _id: { $in: ids } })` returns documents in store order. The model returns them in request order, which the pulls do not depend on.
- `ValidatePendingTasks` requires a list without duplicates. Both callers de-duplicate first, and the source's length comparison relies on that.
- The duplicate-email failure of `user.save()` is a check that no other user has the email. Other storage failures of the writes are out of scope.
