/** The request-time permission classes.

    Each class answers two questions, as the framework's permission classes
    do: may this request reach the view at all (`has_permission`), and may it
    act on this object (`has_object_permission`). A class that overrides only
    one of them answers "yes" to the other, which is the framework default. */
module Permissions {
  import opened Util
  import R = Roles
  import opened Accounts
  import opened Tasks

  /** `request.user`: missing, the anonymous user, or an authenticated account. */
  datatype Requester = NoUser | Anonymous | Authenticated(actor: Actor)

  datatype PermissionClass =
    | IsAuthenticated
    | IsAdmin
    | IsManager
    | IsAdminOrManager
    | CanManageUsers
    | CanManageTasks
    | CanAssignTasks
    | CanEditTask
    | CanDeleteTask

  predicate HasPermission(p: PermissionClass, req: Requester) {
    match p
    case IsAuthenticated => req.Authenticated?
    case IsAdmin => req.Authenticated? && R.IsAdmin(req.actor.role)
    case IsManager => req.Authenticated? && (R.IsAdmin(req.actor.role) || R.IsManager(req.actor.role))
    case IsAdminOrManager => req.Authenticated? && (R.IsAdmin(req.actor.role) || R.IsManager(req.actor.role))
    case CanManageUsers => req.Authenticated? && R.CanManageUsers(req.actor.role)
    case CanManageTasks => req.Authenticated? && R.CanManageTasks(req.actor.role)
    case CanAssignTasks => req.Authenticated? && R.CanAssignTasks(req.actor.role)
    case CanEditTask => true
    case CanDeleteTask => true
  }

  predicate HasObjectPermission(p: PermissionClass, user: Actor, obj: Task) {
    match p
    case CanEditTask =>
      if R.IsAdmin(user.role) then true
      else if R.IsManager(user.role) then true
      else if R.IsMember(user.role) then obj.assignee == Some(user.id)
      else false
    case CanDeleteTask => R.IsAdmin(user.role) || R.IsManager(user.role)
    case _ => true
  }

  /** Every class of the list lets the request reach the view. */
  predicate ViewAllows(perms: seq<PermissionClass>, req: Requester) {
    forall i | 0 <= i < |perms| :: HasPermission(perms[i], req)
  }

  /** Every class of the list lets the user act on the object. */
  predicate ObjectAllows(perms: seq<PermissionClass>, user: Actor, obj: Task) {
    forall i | 0 <= i < |perms| :: HasObjectPermission(perms[i], user, obj)
  }

  /** Each view-level check that the source writes out fails without an authenticated user. */
  lemma NoUserNoPermission(p: PermissionClass, req: Requester)
    requires p != CanEditTask && p != CanDeleteTask
    requires !req.Authenticated?
    ensures !HasPermission(p, req)
  {
  }

  /** `IsManager` and `IsAdminOrManager` are the same check, and `IsAdmin` implies it. */
  lemma ManagerChecks(req: Requester)
    ensures HasPermission(IsManager, req) == HasPermission(IsAdminOrManager, req)
    ensures HasPermission(IsAdmin, req) ==> HasPermission(IsManager, req)
    ensures HasPermission(CanManageUsers, req) ==>
      HasPermission(CanManageTasks, req) && HasPermission(CanAssignTasks, req)
    ensures HasPermission(CanManageTasks, req) == HasPermission(CanAssignTasks, req)
  {
  }

  /** Editing a task: admins and managers always, a member only the tasks assigned to
      them, a user without a role never. */
  lemma EditPermission(user: Actor, obj: Task)
    ensures HasObjectPermission(CanEditTask, user, obj) <==>
      R.IsAdmin(user.role) || R.IsManager(user.role) || (R.IsMember(user.role) && obj.assignee == Some(user.id))
    ensures user.role.None? ==> !HasObjectPermission(CanEditTask, user, obj)
  {
  }

  /** Deleting a task: exactly admins and managers, whatever the task; whoever may delete may edit. */
  lemma DeletePermission(user: Actor, obj: Task)
    ensures HasObjectPermission(CanDeleteTask, user, obj) <==> R.IsAdmin(user.role) || R.IsManager(user.role)
    ensures HasObjectPermission(CanDeleteTask, user, obj) ==> HasObjectPermission(CanEditTask, user, obj)
  {
  }

  /** The permission classes and the task's own methods agree on every user and task. */
  lemma ClassesAgreeWithTaskMethods(user: Actor, obj: Task)
    ensures HasObjectPermission(CanEditTask, user, obj) == CanBeEditedBy(obj, user)
    ensures HasObjectPermission(CanDeleteTask, user, obj) == CanBeDeletedBy(obj, user)
  {
  }
}
