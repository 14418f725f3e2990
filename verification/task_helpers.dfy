/** The helpers at the top of the task routes: request-field parsing, and the
    pending-list writes that follow a task's change of owner or completion. */
module TaskHelpers {

  import opened Common
  import opened Js
  import opened Lists
  import opened TaskModel
  import opened UserModel
  import opened Writes

  /** The text parseBoolean compares with its four words: trimmed, then lower-cased. */
  function Normalized(s: string): string
  {
    ToLower(Trim(s))
  }

  /** `parseBoolean(value, defaultValue)`. */
  function ParseBoolean(value: JsValue, default: bool): (r: bool)
    ensures value.Undefined? ==> r == default
    ensures value.Bool? ==> r == value.b
    ensures value.Str? && Normalized(value.s) in {"true", "1"} ==> r
    ensures value.Str? && Normalized(value.s) in {"false", "0"} ==> !r
    // any other string falls back to JavaScript truthiness: true unless empty
    ensures value.Str? && Normalized(value.s) !in {"true", "1", "false", "0"} ==> r == (value.s != "")
    ensures !value.Undefined? && !value.Bool? && !value.Str? ==> r == Truthy(value)
  {
    match value
    case Undefined => default
    case Bool(b) => b
    case Str(s) =>
      var normalized := Normalized(s);
      if normalized == "true" || normalized == "1" then true
      else if normalized == "false" || normalized == "0" then false
      else Truthy(value)
    case _ => Truthy(value)
  }

  /** A lower-case form that starts with a letter or digit cannot start or end with white space. */
  lemma WordHasNoPadding(word: string)
    requires ToLower(word) in {"true", "1", "false", "0"}
    ensures word != [] && !IsWhiteSpace(word[0]) && !IsWhiteSpace(word[|word| - 1])
  {
    var lowered := ToLower(word);
    assert lowered[0] == LowerChar(word[0]);
    assert lowered[|word| - 1] == LowerChar(word[|word| - 1]);
  }

  /** The words parseBoolean accepts are read the same in any letter case and with any
      white space around them. */
  lemma {:induction false} ParseBooleanWords(w1: string, word: string, w2: string, default: bool)
    requires AllWhiteSpace(w1) && AllWhiteSpace(w2)
    requires ToLower(word) in {"true", "1", "false", "0"}
    ensures ParseBoolean(Str(w1 + word + w2), default) == (ToLower(word) in {"true", "1"})
  {
    WordHasNoPadding(word);
    TrimPadded(w1, word, w2);
    assert Normalized(w1 + word + w2) == ToLower(word);
  }

  /** A string of white space only is not one of the words, so it falls back to
      truthiness and reads as true. */
  lemma {:induction false} ParseBooleanBlank(s: string, default: bool)
    requires s != "" && AllWhiteSpace(s)
    ensures ParseBoolean(Str(s), default)
  {
    assert Trim(s) == "";
    assert Normalized(s) == "";
  }

  /** What parseDeadline hands to `new Date(...)`: the number of an integer literal,
      the trimmed text of any other string, and any other value as it is. */
  function DateArgument(deadline: JsValue): (r: JsValue)
    ensures !deadline.Str? ==> r == deadline
    // a string arrives trimmed, and as a finite number when it is an integer literal
    ensures deadline.Str? && IsIntegerLiteral(Trim(deadline.s)) ==> r.Num? && r.n.Finite?
    ensures deadline.Str? && !IsIntegerLiteral(Trim(deadline.s)) ==> r == Str(Trim(deadline.s))
    // so a text argument never has white space around it
    ensures r.Str? ==> Trim(r.s) == r.s
  {
    if deadline.Str? then
      var trimmed := Trim(deadline.s);
      TrimIdempotent(deadline.s);
      if IsIntegerLiteral(trimmed) then Num(Finite(IntegerValue(trimmed) as real)) else Str(trimmed)
    else
      deadline
  }

  /** The values parseDeadline rejects as missing. */
  predicate DeadlineMissing(deadline: JsValue)
  {
    deadline.Undefined? || deadline.Null? || (deadline.Str? && AllWhiteSpace(deadline.s))
  }

  /** `parseDeadline(deadline)`. `toDate` stands for `new Date(x)` followed by the
      `isNaN(date.getTime())` test: `None` is an invalid date. */
  function ParseDeadline(deadline: JsValue, toDate: JsValue -> Option<Date>): (r: Result<Date>)
    ensures r == Err(DeadlineRequired) <==> DeadlineMissing(deadline)
    ensures r.Err? ==> r.error == DeadlineRequired || r.error == DeadlineInvalid
    ensures deadline.Num? && !deadline.n.Finite? ==> r == Err(DeadlineInvalid)
    ensures !DeadlineMissing(deadline) && !(deadline.Num? && !deadline.n.Finite?) ==>
      (r.Ok? <==> toDate(DateArgument(deadline)).Some?) &&
      (r.Ok? ==> toDate(DateArgument(deadline)) == Some(r.value))
  {
    if deadline == Undefined || deadline == Null || deadline == Str("") then
      Err(DeadlineRequired)
    else if deadline.Str? && Trim(deadline.s) == "" then
      Err(DeadlineRequired)
    else
      var normalized := DateArgument(deadline);
      if normalized.Num? && !normalized.n.Finite? then
        Err(DeadlineInvalid)
      else
        match toDate(normalized)
        case None => Err(DeadlineInvalid)
        case Some(date) => Ok(date)
  }

  /** The answer for what the date parser makes of a value. */
  function DateResult(date: Option<Date>): Result<Date>
  {
    match date
    case None => Err(DeadlineInvalid)
    case Some(d) => Ok(d)
  }

  /** A value that is neither missing nor a non-finite number reaches the date parser. */
  lemma ParseDeadlineReachesDate(deadline: JsValue, toDate: JsValue -> Option<Date>)
    requires !DeadlineMissing(deadline) && !(deadline.Num? && !deadline.n.Finite?)
    ensures ParseDeadline(deadline, toDate) == DateResult(toDate(DateArgument(deadline)))
  {
    if deadline.Str? {
      assert deadline.s != "";
      assert Trim(deadline.s) != "";
    }
  }

  /** Two values that reach the date parser as the same argument are read alike. */
  lemma SameArgumentSameDeadline(d1: JsValue, d2: JsValue, toDate: JsValue -> Option<Date>)
    requires !DeadlineMissing(d1) && !(d1.Num? && !d1.n.Finite?)
    requires !DeadlineMissing(d2) && !(d2.Num? && !d2.n.Finite?)
    requires DateArgument(d1) == DateArgument(d2)
    ensures ParseDeadline(d1, toDate) == ParseDeadline(d2, toDate)
  {
    ParseDeadlineReachesDate(d1, toDate);
    ParseDeadlineReachesDate(d2, toDate);
  }

  /** An epoch given as text, with any white space around it, is read as that number. */
  lemma {:induction false} DeadlineTextAsNumber(w1: string, n: int, w2: string, toDate: JsValue -> Option<Date>)
    requires AllWhiteSpace(w1) && AllWhiteSpace(w2)
    ensures ParseDeadline(Str(w1 + IntText(n) + w2), toDate) == ParseDeadline(Num(Finite(n as real)), toDate)
  {
    var text := IntText(n);
    IntTextRoundTrip(n);
    LiteralUnpadded(text);
    TrimPadded(w1, text, w2);
    SameArgumentSameDeadline(Str(w1 + text + w2), Num(Finite(n as real)), toDate);
  }

  /** White space around a date text does not change how it is read. */
  lemma {:induction false} DeadlinePaddingIgnored(w1: string, s: string, w2: string, toDate: JsValue -> Option<Date>)
    requires AllWhiteSpace(w1) && AllWhiteSpace(w2)
    ensures ParseDeadline(Str(w1 + s + w2), toDate) == ParseDeadline(Str(s), toDate)
  {
    var x := w1 + s + w2;
    if Trim(s) == "" {
      AllWhiteSpaceConcat(w1, s);
      AllWhiteSpaceConcat(w1 + s, w2);
      assert DeadlineMissing(Str(x)) && DeadlineMissing(Str(s));
    } else {
      TrimWithin(w1, s, w2);
      TrimmedAlike(x, s);
      SameArgumentSameDeadline(Str(x), Str(s), toDate);
    }
  }

  /** Strings with the same trimmed text, not blank, reach the date parser alike. */
  lemma TrimmedAlike(a: string, b: string)
    requires Trim(a) == Trim(b) != ""
    ensures !DeadlineMissing(Str(a)) && !DeadlineMissing(Str(b))
    ensures DateArgument(Str(a)) == DateArgument(Str(b))
  {
    NotBlankWhenTrimmed(a);
    NotBlankWhenTrimmed(b);
    DateArgumentOfTrim(a, b);
  }

  lemma NotBlankWhenTrimmed(a: string)
    requires Trim(a) != ""
    ensures !DeadlineMissing(Str(a))
  {
  }

  lemma DateArgumentOfTrim(a: string, b: string)
    requires Trim(a) == Trim(b)
    ensures DateArgument(Str(a)) == DateArgument(Str(b))
  {
  }

  /** The writes `updatePendingTasksForAssignment(taskId, oldUserId, newUserId, completed)`
      issues, as one function of the user collection. */
  function Reassign(users: map<Id, User>, taskId: Id, oldUserId: Id, newUserId: Id, completed: bool): (r: map<Id, User>)
    ensures r.Keys == users.Keys
    ensures forall uid :: uid in users ==>
      r[uid].name == users[uid].name && r[uid].email == users[uid].email
    // users that are neither the (non-empty) old nor the (non-empty) new owner are untouched
    ensures forall uid :: uid in users && !(uid == oldUserId != NoOwner) && !(uid == newUserId != NoOwner) ==>
      r[uid] == users[uid]
    // no other task id moves
    ensures forall uid, x :: uid in users && x != taskId ==>
      (x in r[uid].pendingTasks <==> x in users[uid].pendingTasks)
    // a previous owner that differs from the new one loses the task
    ensures oldUserId != NoOwner && oldUserId != newUserId && oldUserId in users ==>
      taskId !in r[oldUserId].pendingTasks
    // the new owner lists the task exactly when it is not completed, gaining it at most once
    ensures newUserId != NoOwner && newUserId in users ==>
      (taskId in r[newUserId].pendingTasks <==> !completed) &&
      |r[newUserId].pendingTasks| <= |users[newUserId].pendingTasks| + 1
    ensures forall uid :: uid in users && NoDuplicates(users[uid].pendingTasks) ==>
      NoDuplicates(r[uid].pendingTasks)
  {
    var afterOld := ReleaseFromOld(users, taskId, oldUserId, newUserId);
    if newUserId == NoOwner then afterOld
    else if completed then PullFromUser(afterOld, newUserId, taskId)
    else AddToSetForUser(afterOld, newUserId, taskId)
  }

  /** The first write of updatePendingTasksForAssignment: a previous owner other than the
      new one loses the task. */
  function ReleaseFromOld(users: map<Id, User>, taskId: Id, oldUserId: Id, newUserId: Id): (r: map<Id, User>)
    ensures r.Keys == users.Keys
    ensures forall uid :: uid in users ==>
      r[uid].name == users[uid].name && r[uid].email == users[uid].email
    ensures forall uid :: uid in users && !(uid == oldUserId != NoOwner) ==> r[uid] == users[uid]
    ensures forall uid, x :: uid in users && x != taskId ==>
      (x in r[uid].pendingTasks <==> x in users[uid].pendingTasks)
    ensures oldUserId != NoOwner && oldUserId != newUserId && oldUserId in users ==>
      taskId !in r[oldUserId].pendingTasks
    ensures newUserId in users ==> |r[newUserId].pendingTasks| <= |users[newUserId].pendingTasks|
    ensures forall uid :: uid in users && NoDuplicates(users[uid].pendingTasks) ==>
      NoDuplicates(r[uid].pendingTasks)
  {
    if oldUserId != NoOwner && oldUserId != newUserId then PullFromUser(users, oldUserId, taskId) else users
  }

  /** Saving a task again with the owner and completion it already has changes no list:
      the pending-list writes are idempotent. */
  lemma {:induction false} ReassignAgain(users: map<Id, User>, taskId: Id, oldUserId: Id, newUserId: Id, completed: bool)
    ensures var once := Reassign(users, taskId, oldUserId, newUserId, completed);
      Reassign(once, taskId, newUserId, newUserId, completed) == once
  {
    var once := Reassign(users, taskId, oldUserId, newUserId, completed);
    assert ReleaseFromOld(once, taskId, newUserId, newUserId) == once;
    if newUserId != NoOwner && newUserId in once {
      if completed {
        PullAbsent(once, newUserId, taskId);
      } else {
        AddPresent(once, newUserId, taskId);
      }
    }
  }

  /** Pulling an id a user does not list changes nothing. */
  lemma PullAbsent(users: map<Id, User>, uid: Id, tid: Id)
    requires uid in users && tid !in users[uid].pendingTasks
    ensures PullFromUser(users, uid, tid) == users
  {
    var p := users[uid].pendingTasks;
    WithoutAbsent(p, {tid});
    assert users[uid].(pendingTasks := p) == users[uid];
  }

  /** Adding an id a user already lists changes nothing. */
  lemma AddPresent(users: map<Id, User>, uid: Id, tid: Id)
    requires uid in users && tid in users[uid].pendingTasks
    ensures AddToSetForUser(users, uid, tid) == users
  {
    assert users[uid].(pendingTasks := users[uid].pendingTasks) == users[uid];
  }

  /** The user writes of DELETE /tasks/:id: the id leaves the list of the task's recorded
      owner, if it has one, and no other list. */
  function PullFromOwner(tasks: map<Id, Task>, users: map<Id, User>, id: Id): (r: map<Id, User>)
    requires id in tasks
    ensures r.Keys == users.Keys
    ensures forall uid :: uid in users && uid != tasks[id].assignedUser ==> r[uid] == users[uid]
    ensures tasks[id].assignedUser in users ==>
      r[tasks[id].assignedUser].name == users[tasks[id].assignedUser].name &&
      r[tasks[id].assignedUser].email == users[tasks[id].assignedUser].email &&
      forall x :: x in r[tasks[id].assignedUser].pendingTasks <==>
        x in users[tasks[id].assignedUser].pendingTasks && (x != id || tasks[id].assignedUser == NoOwner)
  {
    var owner := tasks[id].assignedUser;
    if owner != NoOwner then PullFromUser(users, owner, id) else users
  }
}
