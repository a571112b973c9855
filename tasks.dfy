/** The task record of the backend: its status choices, title bounds, the
    per-task edit and delete rules, and its string form. */
module Tasks {
  import opened Util
  import opened Roles
  import opened Accounts

  datatype TaskStatus = Todo | InProgress | Done

  /** Stored value of a status. */
  function StatusValue(s: TaskStatus): string {
    match s
    case Todo => "todo"
    case InProgress => "in_progress"
    case Done => "done"
  }

  /** Display label of a status (`get_status_display`). */
  function StatusLabel(s: TaskStatus): string {
    match s
    case Todo => "Todo"
    case InProgress => "In Progress"
    case Done => "Done"
  }

  function ParseStatus(v: string): (r: Option<TaskStatus>)
    ensures r.Some? <==> v in {"todo", "in_progress", "done"}
  {
    if v == "todo" then Some(Todo)
    else if v == "in_progress" then Some(InProgress)
    else if v == "done" then Some(Done)
    else None
  }

  lemma StatusRoundTrip(s: TaskStatus)
    ensures ParseStatus(StatusValue(s)) == Some(s)
  {
  }

  const DefaultStatus: TaskStatus := Todo

  /** The status of a new task: the one supplied, otherwise the default. */
  function StatusOrDefault(given: Option<TaskStatus>): (s: TaskStatus)
    ensures given.None? ==> s == Todo
    ensures given.Some? ==> s == given.value
  {
    if given.Some? then given.value else DefaultStatus
  }

  const TitleMinLength: nat := 3
  const TitleMaxLength: nat := 200

  /** `max_length=200` together with `MinLengthValidator(3)`. */
  predicate TitleValid(title: string) {
    TitleMinLength <= |title| <= TitleMaxLength
  }

  datatype Task = Task(
    id: int,
    title: string,
    description: string,
    status: TaskStatus,
    deadline: Option<int>,
    assignee: Option<UserId>,
    createdBy: Option<UserId>)

  predicate CanBeEditedBy(t: Task, user: Actor) {
    if IsAdmin(user.role) then true
    else if IsManager(user.role) then true
    else if IsMember(user.role) then t.assignee == Some(user.id)
    else false
  }

  predicate CanBeDeletedBy(t: Task, user: Actor) {
    if IsAdmin(user.role) then true
    else if IsManager(user.role) then true
    else false
  }

  /** Editing: admins and managers always; a member exactly on the tasks assigned to
      them; a user without a role never. */
  lemma EditRule(t: Task, user: Actor)
    ensures CanBeEditedBy(t, user) <==>
      CanManageTasks(user.role) || (IsMember(user.role) && t.assignee == Some(user.id))
    ensures user.role.None? ==> !CanBeEditedBy(t, user)
  {
  }

  /** Deleting depends only on the role, so an assigned member can never delete;
      and whoever may delete a task may edit it. */
  lemma DeleteRule(t: Task, user: Actor)
    ensures CanBeDeletedBy(t, user) <==> IsAdmin(user.role) || IsManager(user.role)
    ensures forall other: Task :: CanBeDeletedBy(other, user) == CanBeDeletedBy(t, user)
    ensures IsMember(user.role) ==> !CanBeDeletedBy(t, user)
    ensures CanBeDeletedBy(t, user) ==> CanBeEditedBy(t, user)
  {
  }

  /** `__str__`: the title, a dash, and the status label. */
  function TaskString(t: Task): (r: string)
    ensures |r| == |t.title| + 3 + |StatusLabel(t.status)|
    ensures r[..|t.title|] == t.title
  {
    t.title + " - " + StatusLabel(t.status)
  }

  lemma TaskStringExample()
    ensures TaskString(Task(1, "Test Task", "", Todo, None, None, None)) == "Test Task - Todo"
  {
  }

  /** The string form determines the status: two tasks with the same title print alike
      only if their statuses are equal. */
  lemma {:induction false} TaskStringDeterminesStatus(t1: Task, t2: Task)
    requires t1.title == t2.title
    requires TaskString(t1) == TaskString(t2)
    ensures t1.status == t2.status
  {
    var prefix := t1.title + " - ";
    assert TaskString(t1) == prefix + StatusLabel(t1.status);
    assert TaskString(t2) == prefix + StatusLabel(t2.status);
    assert StatusLabel(t1.status) == TaskString(t1)[|prefix|..];
    assert StatusLabel(t2.status) == TaskString(t2)[|prefix|..];
    match t1.status
    case Todo =>
      assert StatusLabel(t2.status) == "Todo";
    case InProgress =>
      assert StatusLabel(t2.status) == "In Progress";
    case Done =>
      assert StatusLabel(t2.status) == "Done";
  }
}
