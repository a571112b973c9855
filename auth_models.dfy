/** The two records of the authentication app: a password-reset request, which
    waits for an administrator's approval and expires 24 hours after it is
    first saved, and an entry of the administrators' audit log. Time is a
    number of seconds passed in as `now`. */
module AuthModels {
  import opened Util
  import opened Accounts

  // ---------------------------------------------------------------------------
  // Password-reset requests

  datatype ResetStatus = Pending | Approved | Rejected | Completed | Expired

  function ResetStatusValue(s: ResetStatus): string {
    match s
    case Pending => "PENDING"
    case Approved => "APPROVED"
    case Rejected => "REJECTED"
    case Completed => "COMPLETED"
    case Expired => "EXPIRED"
  }

  function ResetStatusLabel(s: ResetStatus): string {
    match s
    case Pending => "Pending Admin Approval"
    case Approved => "Approved"
    case Rejected => "Rejected"
    case Completed => "Password Reset Completed"
    case Expired => "Expired"
  }

  const ResetStatusValues: set<string> := {"PENDING", "APPROVED", "REJECTED", "COMPLETED", "EXPIRED"}

  function ParseResetStatus(v: string): (r: Option<ResetStatus>)
    ensures r.Some? <==> v in ResetStatusValues
    ensures r.Some? ==> ResetStatusValue(r.value) == v
  {
    if v == "PENDING" then Some(Pending)
    else if v == "APPROVED" then Some(Approved)
    else if v == "REJECTED" then Some(Rejected)
    else if v == "COMPLETED" then Some(Completed)
    else if v == "EXPIRED" then Some(Expired)
    else None
  }

  /** Every status is stored as one of the five values and reads back as itself. */
  lemma ResetStatusRoundTrip(s: ResetStatus)
    ensures ResetStatusValue(s) in ResetStatusValues
    ensures ParseResetStatus(ResetStatusValue(s)) == Some(s)
  {
  }

  /** Twenty-four hours, in seconds. */
  const ResetLifetime: int := 24 * 60 * 60

  /** The expiry after a save: an unset expiry becomes `now` plus the lifetime, a set one
      is kept. */
  function ExpiryAfterSave(expiresAt: Option<int>, now: int): (r: Option<int>)
    ensures r.Some?
    ensures expiresAt.Some? ==> r == expiresAt
    ensures expiresAt.None? ==> r == Some(now + ResetLifetime)
  {
    if expiresAt.None? then Some(now + ResetLifetime) else expiresAt
  }

  /** The expiry is written once: any later save, at any time, leaves it as it is. */
  lemma {:induction false} ExpiryWrittenOnce(expiresAt: Option<int>, first: int, later: int)
    ensures ExpiryAfterSave(ExpiryAfterSave(expiresAt, first), later) == ExpiryAfterSave(expiresAt, first)
  {
  }

  /** `is_expired` is strict: a request is still usable at the very second it expires. */
  predicate IsExpiredAt(expiresAt: int, now: int) {
    now > expiresAt
  }

  predicate CanResetAt(status: ResetStatus, expiresAt: int, now: int) {
    status == Approved && !IsExpiredAt(expiresAt, now)
  }

  lemma ExpiryIsStrict(expiresAt: int)
    ensures !IsExpiredAt(expiresAt, expiresAt)
    ensures IsExpiredAt(expiresAt, expiresAt + 1)
    ensures forall now :: IsExpiredAt(expiresAt, now) <==> now >= expiresAt + 1
  {
  }

  /** A reset is possible exactly for an approved request up to and including its expiry;
      pending, rejected, completed and expired requests never allow one. */
  lemma CanResetMeaning(status: ResetStatus, expiresAt: int, now: int)
    ensures CanResetAt(status, expiresAt, now) <==> status == Approved && now <= expiresAt
    ensures status != Approved ==> !CanResetAt(status, expiresAt, now)
  {
  }

  /** The expiry runs from the first save, not from the approval: a request first saved at
      `created` is never usable after `created` plus 24 hours, and one approved later than
      that can never be used. */
  lemma {:induction false} ExpiryRunsFromCreation(created: int, approvedAt: int, now: int)
    requires now >= approvedAt
    ensures var expires := ExpiryAfterSave(None, created).value;
      && (CanResetAt(Approved, expires, now) ==> now <= created + ResetLifetime)
      && (approvedAt > created + ResetLifetime ==> !CanResetAt(Approved, ExpiryAfterSave(ExpiryAfterSave(None, created), approvedAt).value, now))
  {
    ExpiryWrittenOnce(None, created, approvedAt);
  }

  /** `__str__`: the user's e-mail and the stored status value. */
  function ResetRequestString(email: string, status: ResetStatus): (r: string)
    ensures |r| == 17 + |email| + 2 + |ResetStatusValue(status)| + 1
    ensures r[..17] == "Password Reset - "
  {
    "Password Reset - " + email + " (" + ResetStatusValue(status) + ")"
  }

  /** For one user the string form tells the status apart. */
  lemma {:induction false} ResetRequestStringDeterminesStatus(email: string, s1: ResetStatus, s2: ResetStatus)
    requires ResetRequestString(email, s1) == ResetRequestString(email, s2)
    ensures s1 == s2
  {
    var prefix := "Password Reset - " + email + " (";
    var r1, r2 := ResetRequestString(email, s1), ResetRequestString(email, s2);
    assert r1 == prefix + (ResetStatusValue(s1) + ")");
    assert r2 == prefix + (ResetStatusValue(s2) + ")");
    assert r1[|prefix|..] == ResetStatusValue(s1) + ")";
    assert r2[|prefix|..] == ResetStatusValue(s2) + ")";
    var v1, v2 := ResetStatusValue(s1), ResetStatusValue(s2);
    assert v1 == (v1 + ")")[..|v1|];
    assert v2 == (v2 + ")")[..|v2|];
    assert v1 == v2;
    ResetStatusRoundTrip(s1);
    ResetStatusRoundTrip(s2);
  }

  /** A stored password-reset request. */
  class PasswordResetRequest {
    const user: UserData
    const token: string
    var status: ResetStatus
    var approvedBy: Option<UserId>
    var reason: Option<string>
    var adminNotes: Option<string>
    var createdAt: Option<int>
    var approvedAt: Option<int>
    var completedAt: Option<int>
    var expiresAt: Option<int>

    /** A new, unsaved request: pending, with nothing set by an administrator. */
    constructor (user: UserData, token: string, reason: Option<string>)
      ensures this.user == user && this.token == token && this.reason == reason
      ensures status == Pending
      ensures approvedBy.None? && adminNotes.None? && approvedAt.None? && completedAt.None?
      ensures createdAt.None? && expiresAt.None?
    {
      this.user := user;
      this.token := token;
      this.reason := reason;
      status := Pending;
      approvedBy := None;
      adminNotes := None;
      createdAt := None;
      approvedAt := None;
      completedAt := None;
      expiresAt := None;
    }

    /** `save`: sets the expiry when it is unset; the creation time is recorded on the
        first save. Nothing else changes. */
    method Save(now: int)
      modifies this
      ensures expiresAt == ExpiryAfterSave(old(expiresAt), now)
      ensures old(expiresAt).Some? ==> expiresAt == old(expiresAt)
      ensures createdAt == (if old(createdAt).None? then Some(now) else old(createdAt))
      ensures status == old(status) && approvedBy == old(approvedBy) && reason == old(reason)
      ensures adminNotes == old(adminNotes) && approvedAt == old(approvedAt) && completedAt == old(completedAt)
    {
      if expiresAt.None? {
        expiresAt := Some(now + ResetLifetime);
      }
      if createdAt.None? {
        createdAt := Some(now);
      }
    }

    /** `is_expired`, on a saved request. */
    predicate IsExpired(now: int)
      reads this
      requires expiresAt.Some?
    {
      IsExpiredAt(expiresAt.value, now)
    }

    /** `can_reset_password`, on a saved request. */
    predicate CanResetPassword(now: int)
      reads this
      requires expiresAt.Some?
    {
      CanResetAt(status, expiresAt.value, now)
    }

    function ToString(): string
      reads this
    {
      ResetRequestString(user.email, status)
    }
  }

  /** The stored requests; the token column is unique. */
  class ResetRequestStore {
    var requests: seq<PasswordResetRequest>

    ghost predicate Valid()
      reads this
    {
      forall i, j | 0 <= i < j < |requests| :: requests[i].token != requests[j].token
    }

    constructor ()
      ensures Valid() && requests == []
    {
      requests := [];
    }

    /** Inserting a saved request: refused when its token is already stored. */
    method Insert(r: PasswordResetRequest) returns (ok: bool)
      requires Valid()
      modifies this
      ensures Valid()
      ensures ok <==> forall i | 0 <= i < |old(requests)| :: old(requests)[i].token != r.token
      ensures ok ==> requests == old(requests) + [r]
      ensures !ok ==> requests == old(requests)
    {
      var i := 0;
      while i < |requests|
        invariant 0 <= i <= |requests|
        invariant forall k | 0 <= k < i :: requests[k].token != r.token
      {
        if requests[i].token == r.token {
          return false;
        }
        i := i + 1;
      }
      requests := requests + [r];
      ok := true;
    }

    /** At most one stored request carries a given token. */
    lemma TokenIdentifiesRequest(i: int, j: int)
      requires Valid()
      requires 0 <= i < |requests| && 0 <= j < |requests|
      requires requests[i].token == requests[j].token
      ensures i == j
    {
    }
  }

  // ---------------------------------------------------------------------------
  // Audit log

  datatype AuditAction =
    | CreateUser | UpdateUser | DeleteUser | ChangeRole | ResetPassword
    | ApproveReset | RejectReset | ActivateUser | DeactivateUser
    | CreateTask | UpdateTask | DeleteTask | Login | Logout | Other

  function ActionValue(a: AuditAction): string {
    match a
    case CreateUser => "CREATE_USER"
    case UpdateUser => "UPDATE_USER"
    case DeleteUser => "DELETE_USER"
    case ChangeRole => "CHANGE_ROLE"
    case ResetPassword => "RESET_PASSWORD"
    case ApproveReset => "APPROVE_RESET"
    case RejectReset => "REJECT_RESET"
    case ActivateUser => "ACTIVATE_USER"
    case DeactivateUser => "DEACTIVATE_USER"
    case CreateTask => "CREATE_TASK"
    case UpdateTask => "UPDATE_TASK"
    case DeleteTask => "DELETE_TASK"
    case Login => "LOGIN"
    case Logout => "LOGOUT"
    case Other => "OTHER"
  }

  function ActionLabel(a: AuditAction): string {
    match a
    case CreateUser => "Created User"
    case UpdateUser => "Updated User"
    case DeleteUser => "Deleted User"
    case ChangeRole => "Changed User Role"
    case ResetPassword => "Reset User Password"
    case ApproveReset => "Approved Password Reset"
    case RejectReset => "Rejected Password Reset"
    case ActivateUser => "Activated User"
    case DeactivateUser => "Deactivated User"
    case CreateTask => "Created Task"
    case UpdateTask => "Updated Task"
    case DeleteTask => "Deleted Task"
    case Login => "Admin Login"
    case Logout => "Admin Logout"
    case Other => "Other Action"
  }

  /** The choices in declaration order. */
  const AllActions: seq<AuditAction> := [
    CreateUser, UpdateUser, DeleteUser, ChangeRole, ResetPassword,
    ApproveReset, RejectReset, ActivateUser, DeactivateUser,
    CreateTask, UpdateTask, DeleteTask, Login, Logout, Other]

  /** The action whose stored value is `v`, if any. */
  function ParseAction(v: string): (r: Option<AuditAction>)
    ensures r.Some? ==> ActionValue(r.value) == v
  {
    if v == "CREATE_USER" then Some(CreateUser)
    else if v == "UPDATE_USER" then Some(UpdateUser)
    else if v == "DELETE_USER" then Some(DeleteUser)
    else if v == "CHANGE_ROLE" then Some(ChangeRole)
    else if v == "RESET_PASSWORD" then Some(ResetPassword)
    else if v == "APPROVE_RESET" then Some(ApproveReset)
    else if v == "REJECT_RESET" then Some(RejectReset)
    else if v == "ACTIVATE_USER" then Some(ActivateUser)
    else if v == "DEACTIVATE_USER" then Some(DeactivateUser)
    else if v == "CREATE_TASK" then Some(CreateTask)
    else if v == "UPDATE_TASK" then Some(UpdateTask)
    else if v == "DELETE_TASK" then Some(DeleteTask)
    else if v == "LOGIN" then Some(Login)
    else if v == "LOGOUT" then Some(Logout)
    else if v == "OTHER" then Some(Other)
    else None
  }

  lemma ActionRoundTrip(a: AuditAction)
    ensures ParseAction(ActionValue(a)) == Some(a)
  {
  }

  /** Distinct actions are stored under distinct values. */
  lemma ActionValueInjective(a: AuditAction, b: AuditAction)
    ensures ActionValue(a) == ActionValue(b) ==> a == b
  {
    ActionRoundTrip(a);
    ActionRoundTrip(b);
  }

  /** There are exactly fifteen actions, each listed once. */
  lemma FifteenActions(a: AuditAction)
    ensures |AllActions| == 15 && Distinct(AllActions)
    ensures a in AllActions
  {
  }

  /** `__str__` of an audit entry: the acting admin's e-mail, or "System" when the entry has
      no admin, then the action's label and the rendered creation time. */
  function AuditEntryString(admin: Option<UserData>, action: AuditAction, createdAt: string): (r: string)
    ensures admin.None? ==> "System - " <= r
    ensures admin.Some? ==> admin.value.email + " - " <= r
    ensures |r| >= |createdAt| + 4 && r[|r| - |createdAt| - 4..] == " at " + createdAt
  {
    var adminName := if admin.Some? then admin.value.email else "System";
    adminName + " - " + ActionLabel(action) + " at " + createdAt
  }

  /** Distinct actions carry distinct labels. */
  lemma ActionLabelInjective(a: AuditAction, b: AuditAction)
    ensures ActionLabel(a) == ActionLabel(b) ==> a == b
  {
  }

  /** Equal strings built around the same prefix and suffix have equal middles. */
  lemma {:induction false} SameFrameSameMiddle(p: string, x: string, y: string, s: string, t: string)
    requires p + x + s + t == p + y + s + t
    ensures x == y
  {
    var whole := p + x + s + t;
    assert |x| == |y|;
    assert x == whole[|p|..|p| + |x|];
    assert y == (p + y + s + t)[|p|..|p| + |y|];
  }

  /** Given the admin and the time, the string names the action: two entries that differ
      only in their action never print alike. */
  lemma {:induction false} AuditEntryStringDeterminesAction(admin: Option<UserData>, a: AuditAction,
                                                           b: AuditAction, createdAt: string)
    requires AuditEntryString(admin, a, createdAt) == AuditEntryString(admin, b, createdAt)
    ensures a == b
  {
    var adminName := if admin.Some? then admin.value.email else "System";
    SameFrameSameMiddle(adminName + " - ", ActionLabel(a), ActionLabel(b), " at ", createdAt);
    ActionLabelInjective(a, b);
  }
}
