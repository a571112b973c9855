/** The task endpoints: which permission classes guard each action, which
    tasks a user can see, the statistics endpoint, and the two endpoints that
    write a task (creation, which records the creator, and assignment). */
module TaskViews {
  import opened Util
  import R = Roles
  import opened Accounts
  import opened Tasks
  import opened Permissions

  // ---------------------------------------------------------------------------
  // Permissions per action

  /** `get_permissions` as written: it builds the list from the action name alone. */
  function GetPermissions(action: string): seq<PermissionClass> {
    if action in ["create"] then [IsAuthenticated, CanManageTasks]
    else if action in ["update", "partial_update"] then [IsAuthenticated, CanEditTask]
    else if action == "destroy" then [IsAuthenticated, CanDeleteTask]
    else [IsAuthenticated]
  }

  /** The classes an extra action declares on its own decorator. */
  function DeclaredPermissions(action: string): Option<seq<PermissionClass>> {
    if action == "assign" then Some([IsAuthenticated, CanAssignTasks]) else None
  }

  /** The intended list: an action's own declaration wins, otherwise the mapping above. */
  function GetPermissionsIntended(action: string): seq<PermissionClass> {
    match DeclaredPermissions(action)
    case Some(perms) => perms
    case None => GetPermissions(action)
  }

  /** What the view-level check demands for each action: managing tasks to create,
      authentication alone otherwise (edit and delete rights are checked per object). */
  lemma {:induction false} ViewLevelByAction(action: string, req: Requester)
    ensures action == "create" ==>
      (ViewAllows(GetPermissions(action), req) <==> req.Authenticated? && R.CanManageTasks(req.actor.role))
    ensures action != "create" ==> (ViewAllows(GetPermissions(action), req) <==> req.Authenticated?)
    ensures action in ["update", "partial_update"] ==> CanEditTask in GetPermissions(action)
    ensures action == "destroy" ==> CanDeleteTask in GetPermissions(action)
  {
    var perms := GetPermissions(action);
    assert perms[0] == IsAuthenticated;
    if action == "create" {
      assert perms[1] == CanManageTasks;
    }
  }

  /** As written, `assign` is guarded by authentication alone: a member, who cannot assign
      tasks, passes every check the action performs. */
  lemma AssignAsWrittenAdmitsMembers(id: UserId, task: Task)
    ensures var member := Authenticated(Actor(id, Some(R.Member)));
      && ViewAllows(GetPermissions("assign"), member)
      && ObjectAllows(GetPermissions("assign"), member.actor, task)
      && !R.CanAssignTasks(member.actor.role)
  {
    var perms := GetPermissions("assign");
    assert perms == [IsAuthenticated];
  }

  /** As written, a member reaches the `assign` action on any task assigned to them, where
      the declared classes would refuse them: so a member can hand their own task to anyone. */
  lemma {:induction false} AssignAsWrittenMemberReassigns(id: UserId, all: seq<Task>, pk: int, i: nat)
    requires i < |all| && all[i].id == pk && all[i].assignee == Some(id)
    ensures var member := Authenticated(Actor(id, Some(R.Member)));
      && DetailAccess(GetPermissions("assign"), member, all, pk).Granted?
      && DetailAccess(GetPermissionsIntended("assign"), member, all, pk) == Forbidden
  {
    var member := Authenticated(Actor(id, Some(R.Member)));
    assert GetPermissions("assign") == [IsAuthenticated];
    var intended := GetPermissionsIntended("assign");
    assert intended == [IsAuthenticated, CanAssignTasks];
    assert !HasPermission(intended[1], member);
    VisibleTaskFound(member.actor, all, pk, i);
  }

  /** With the declared classes honoured, `assign` needs the assign capability; every other
      action keeps the as-written list. */
  lemma AssignIntendedNeedsCapability(action: string, req: Requester)
    ensures ViewAllows(GetPermissionsIntended("assign"), req) <==>
      req.Authenticated? && R.CanAssignTasks(req.actor.role)
    ensures action != "assign" ==> GetPermissionsIntended(action) == GetPermissions(action)
  {
    var perms := GetPermissionsIntended("assign");
    assert perms == [IsAuthenticated, CanAssignTasks];
    assert perms[0] == IsAuthenticated && perms[1] == CanAssignTasks;
  }

  // ---------------------------------------------------------------------------
  // Visibility

  function AssignedTo(id: UserId): Task -> bool {
    (t: Task) => t.assignee == Some(id)
  }

  /** `get_queryset`: all tasks for admins and managers, the assigned ones for a member,
      none for a user without a role. */
  function VisibleTasks(me: Actor, all: seq<Task>): (r: seq<Task>)
    ensures R.IsAdmin(me.role) || R.IsManager(me.role) ==> r == all
    ensures R.IsMember(me.role) ==> forall t :: t in r <==> t in all && t.assignee == Some(me.id)
    ensures me.role.None? ==> r == []
    ensures IsSubsequence(r, all)
  {
    FilterIsSubsequence(all, AssignedTo(me.id));
    SubsequenceRefl(all);
    if R.IsAdmin(me.role) then all
    else if R.IsManager(me.role) then all
    else if R.IsMember(me.role) then
      var r := Filter(all, AssignedTo(me.id));
      assert forall t :: t in r ==> t in all && t.assignee == Some(me.id) by {
        forall t | t in r ensures t in all && t.assignee == Some(me.id) {
          var i :| 0 <= i < |r| && r[i] == t;
        }
      }
      assert forall t :: t in all && t.assignee == Some(me.id) ==> t in r by {
        forall t | t in all && t.assignee == Some(me.id) ensures t in r {
          var i :| 0 <= i < |all| && all[i] == t;
        }
      }
      r
    else []
  }

  // ---------------------------------------------------------------------------
  // Access to one task through a detail route

  datatype Access = NotAuthenticated | Forbidden | NotFound | Granted(task: Task)

  /** The first task with primary key `pk`. */
  function FindById(s: seq<Task>, pk: int): (r: Option<Task>)
    ensures r.Some? ==> r.value in s && r.value.id == pk
    ensures r.None? ==> forall i | 0 <= i < |s| :: s[i].id != pk
  {
    if s == [] then None
    else if s[0].id == pk then Some(s[0])
    else FindById(s[1..], pk)
  }

  /** The order of checks on a detail route: the view-level classes (401 or 403), the
      lookup among the visible tasks (404), then the object-level classes (403). */
  function DetailAccess(perms: seq<PermissionClass>, req: Requester, all: seq<Task>, pk: int): Access {
    if !ViewAllows(perms, req) then (if req.Authenticated? then Forbidden else NotAuthenticated)
    else if !req.Authenticated? then NotAuthenticated
    else match FindById(VisibleTasks(req.actor, all), pk)
      case None => NotFound
      case Some(t) => if ObjectAllows(perms, req.actor, t) then Granted(t) else Forbidden
  }

  /** Deleting: granted exactly to admins and managers, on an existing task; a member is
      refused (not found, or forbidden on a task assigned to them). */
  lemma {:induction false} DestroyAccess(req: Requester, all: seq<Task>, pk: int)
    ensures DetailAccess(GetPermissions("destroy"), req, all, pk).Granted? <==>
      && req.Authenticated?
      && (R.IsAdmin(req.actor.role) || R.IsManager(req.actor.role))
      && exists i :: 0 <= i < |all| && all[i].id == pk
  {
    var perms := GetPermissions("destroy");
    assert perms == [IsAuthenticated, CanDeleteTask];
    assert perms[0] == IsAuthenticated && perms[1] == CanDeleteTask;
    if req.Authenticated? && (R.IsAdmin(req.actor.role) || R.IsManager(req.actor.role)) {
      assert ViewAllows(perms, req);
      assert forall t :: ObjectAllows(perms, req.actor, t);
      assert VisibleTasks(req.actor, all) == all;
      var found := FindById(all, pk);
      if found.Some? {
        var i :| 0 <= i < |all| && all[i] == found.value;
        assert all[i].id == pk;
      }
      if exists i :: 0 <= i < |all| && all[i].id == pk {
        var i :| 0 <= i < |all| && all[i].id == pk;
        assert found.Some?;
      }
    }
  }

  /** A task with key `pk` that the user sees is found by the lookup among the visible tasks. */
  lemma {:induction false} VisibleTaskFound(me: Actor, all: seq<Task>, pk: int, i: nat)
    requires i < |all| && all[i].id == pk
    requires R.IsAdmin(me.role) || R.IsManager(me.role) || (R.IsMember(me.role) && all[i].assignee == Some(me.id))
    ensures FindById(VisibleTasks(me, all), pk).Some?
  {
    var visible := VisibleTasks(me, all);
    assert all[i] in visible;
    var j :| 0 <= j < |visible| && visible[j] == all[i];
    assert visible[j].id == pk;
  }

  /** Updating: admins and managers reach every existing task; a member reaches exactly the
      tasks assigned to them, and a user without a role none. */
  lemma {:induction false} UpdateAccess(req: Requester, all: seq<Task>, pk: int)
    ensures var a := DetailAccess(GetPermissions("update"), req, all, pk);
      && (a.Granted? ==> req.Authenticated? && a.task in all && a.task.id == pk && CanBeEditedBy(a.task, req.actor))
      && (a.Granted? && R.IsMember(req.actor.role) ==> a.task.assignee == Some(req.actor.id))
      && (req.Authenticated? && req.actor.role.None? ==> !a.Granted?)
    ensures req.Authenticated? && (R.IsAdmin(req.actor.role) || R.IsManager(req.actor.role))
      && (exists i :: 0 <= i < |all| && all[i].id == pk)
      ==> DetailAccess(GetPermissions("update"), req, all, pk).Granted?
    ensures req.Authenticated? && R.IsMember(req.actor.role)
      && (exists i :: 0 <= i < |all| && all[i].id == pk && all[i].assignee == Some(req.actor.id))
      ==> DetailAccess(GetPermissions("update"), req, all, pk).Granted?
  {
    var perms := GetPermissions("update");
    assert perms == [IsAuthenticated, CanEditTask];
    if req.Authenticated? && exists i :: 0 <= i < |all| && all[i].id == pk && CanBeEditedBy(all[i], req.actor) {
      var i :| 0 <= i < |all| && all[i].id == pk && CanBeEditedBy(all[i], req.actor);
      UpdateReachesEditable(req.actor, all, pk, i);
    }
  }

  /** An authenticated user reaches, through the update route, a task they may edit. */
  lemma {:induction false} UpdateReachesEditable(me: Actor, all: seq<Task>, pk: int, i: nat)
    requires i < |all| && all[i].id == pk && CanBeEditedBy(all[i], me)
    ensures DetailAccess(GetPermissions("update"), Authenticated(me), all, pk).Granted?
  {
    var perms := GetPermissions("update");
    assert perms == [IsAuthenticated, CanEditTask];
    VisibleTaskFound(me, all, pk, i);
    assert ViewAllows(perms, Authenticated(me));
  }

  // ---------------------------------------------------------------------------
  // Statistics

  function CountStatus(s: seq<Task>, st: TaskStatus): (n: nat)
    ensures n <= |s|
  {
    if s == [] then 0 else (if s[0].status == st then 1 else 0) + CountStatus(s[1..], st)
  }

  /** Each task has one of the three statuses, so the three counts add up to the total. */
  lemma {:induction false} StatusCountsAddUp(s: seq<Task>)
    ensures CountStatus(s, Todo) + CountStatus(s, InProgress) + CountStatus(s, Done) == |s|
  {
    if s != [] {
      StatusCountsAddUp(s[1..]);
    }
  }

  datatype StatusCounts = StatusCounts(total: nat, todo: nat, inProgress: nat, done: nat)

  function CountsOf(s: seq<Task>): StatusCounts {
    StatusCounts(|s|, CountStatus(s, Todo), CountStatus(s, InProgress), CountStatus(s, Done))
  }

  /** The statistics response: counts over the visible tasks, plus the `my_*` counts for a member. */
  datatype Statistics = Statistics(overall: StatusCounts, mine: Option<StatusCounts>)

  function TaskStatistics(me: Actor, all: seq<Task>): Statistics {
    var queryset := VisibleTasks(me, all);
    var mine := if R.IsMember(me.role) then Some(CountsOf(Filter(queryset, AssignedTo(me.id)))) else None;
    Statistics(CountsOf(queryset), mine)
  }

  /** The counts cover every visible task; the `my_*` counts appear only for a member,
      and equal the overall ones there, since a member's queryset is already restricted. */
  lemma {:induction false} StatisticsProperties(me: Actor, all: seq<Task>)
    ensures var st := TaskStatistics(me, all);
      && st.overall.todo + st.overall.inProgress + st.overall.done == st.overall.total
      && st.overall.total == |VisibleTasks(me, all)|
      && (st.mine.Some? <==> R.IsMember(me.role))
      && (st.mine.Some? ==> st.mine.value == st.overall)
  {
    var queryset := VisibleTasks(me, all);
    StatusCountsAddUp(queryset);
    if R.IsMember(me.role) {
      FilterIdempotent(all, AssignedTo(me.id));
      assert queryset == Filter(all, AssignedTo(me.id));
    }
  }

  // ---------------------------------------------------------------------------
  // Writing tasks

  /** The validated fields of a create request. */
  datatype TaskInput = TaskInput(
    title: string,
    description: string,
    status: Option<TaskStatus>,
    deadline: Option<int>,
    assignee: Option<UserId>)

  datatype AssignResponse =
    | AssignDenied(code: nat)
    | AssignNotFound(error: string)
    | AssignBadRequest(error: string)
    | Assigned(task: Task)

  function IndexOfId(s: seq<Task>, pk: int): (r: Option<nat>)
    ensures r.Some? ==> r.value < |s| && s[r.value].id == pk
    ensures r.None? ==> forall i | 0 <= i < |s| :: s[i].id != pk
  {
    if s == [] then None
    else if s[0].id == pk then Some(0)
    else match IndexOfId(s[1..], pk)
      case None => None
      case Some(i) => Some(i + 1)
  }

  /** The stored tasks. */
  class TaskTable {
    var rows: seq<Task>
    var nextId: int

    ghost predicate Valid()
      reads this
    {
      && (forall i | 0 <= i < |rows| :: rows[i].id < nextId)
      && (forall i, j | 0 <= i < j < |rows| :: rows[i].id != rows[j].id)
      && (forall i | 0 <= i < |rows| :: TitleValid(rows[i].title))
    }

    constructor ()
      ensures Valid() && rows == []
    {
      rows := [];
      nextId := 1;
    }

    /** `perform_create`: the validated task is saved with the requester as its creator. */
    method PerformCreate(input: TaskInput, me: Actor) returns (t: Task)
      requires Valid()
      requires TitleValid(input.title)
      modifies this
      ensures Valid()
      ensures t.createdBy == Some(me.id)
      ensures t == Task(old(nextId), input.title, input.description, StatusOrDefault(input.status),
                        input.deadline, input.assignee, Some(me.id))
      ensures rows == old(rows) + [t]
    {
      t := Task(nextId, input.title, input.description, StatusOrDefault(input.status),
                input.deadline, input.assignee, Some(me.id));
      rows := rows + [t];
      nextId := nextId + 1;
    }

    /** The `assign` action, guarded by the permission classes `perms` (as written, the list
        `GetPermissions("assign")`; as intended, `GetPermissionsIntended("assign")`): on every
        refusal nothing changes; on success only the assignee of task `pk` changes. */
    method Assign(perms: seq<PermissionClass>, req: Requester, pk: int, assigneeId: Option<int>, userIds: set<UserId>)
      returns (resp: AssignResponse)
      requires Valid()
      modifies this
      ensures Valid()
      ensures nextId == old(nextId)
      ensures !resp.Assigned? ==> rows == old(rows)
      ensures resp.Assigned? <==>
        && DetailAccess(perms, req, old(rows), pk).Granted?
        && Truthy(assigneeId) && assigneeId.value in userIds
      ensures DetailAccess(perms, req, old(rows), pk).Granted? && !Truthy(assigneeId)
        ==> resp.AssignBadRequest?
      ensures DetailAccess(perms, req, old(rows), pk).Granted? && Truthy(assigneeId) && assigneeId.value !in userIds
        ==> resp == AssignNotFound("User not found")
      ensures resp.Assigned? ==>
        exists i :: 0 <= i < |old(rows)| && old(rows)[i].id == pk
          && rows == old(rows)[i := old(rows)[i].(assignee := Some(assigneeId.value))]
          && resp.task == rows[i]
    {
      var access := DetailAccess(perms, req, rows, pk);
      match access
      case NotAuthenticated =>
        resp := AssignDenied(401);
      case Forbidden =>
        resp := AssignDenied(403);
      case NotFound =>
        resp := AssignNotFound("Not found.");
      case Granted(task) =>
        if !Truthy(assigneeId) {
          resp := AssignBadRequest("assignee_id is required");
        } else if assigneeId.value !in userIds {
          resp := AssignNotFound("User not found");
        } else {
          var k := IndexOfId(rows, pk);
          var i := k.value;
          var updated := rows[i].(assignee := Some(assigneeId.value));
          rows := rows[i := updated];
          resp := Assigned(updated);
        }
    }
  }
}
