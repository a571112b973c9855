/** The role-capability engine.

    A user carries at most one role from a closed set of three. The repository
    spells a role two ways: the upper-case values of the `User.Role` choices
    (used by the flag mixin, the serializers, the views, the legacy-role
    migration and the frontend constants) and the lower-case names of rows of
    the `Role` table. Both spellings are modelled as printers with parsers; the
    flags and capabilities are computed from the one `Role` datatype, and the
    `Role`-row flags are shown to agree with them. */
module Roles {
  import opened Util

  datatype Role = Admin | Manager | Member

  /** Stored value of a role among the `User.Role` choices. */
  function Choice(r: Role): string {
    match r
    case Admin => "ADMIN"
    case Manager => "MANAGER"
    case Member => "MEMBER"
  }

  const ChoiceValues: set<string> := {"ADMIN", "MANAGER", "MEMBER"}

  /** The role whose choice value is `s`, if any (membership test against the choices). */
  function ParseChoice(s: string): (r: Option<Role>)
    ensures r.Some? <==> s in ChoiceValues
    ensures r.Some? ==> Choice(r.value) == s
  {
    if s == "ADMIN" then Some(Admin)
    else if s == "MANAGER" then Some(Manager)
    else if s == "MEMBER" then Some(Member)
    else None
  }

  lemma ChoiceRoundTrip(r: Role)
    ensures Choice(r) in ChoiceValues
    ensures ParseChoice(Choice(r)) == Some(r)
  {
  }

  /** Name of a row of the `Role` table (lower-case choices). */
  function Name(r: Role): string {
    match r
    case Admin => "admin"
    case Manager => "manager"
    case Member => "member"
  }

  const NameValues: set<string> := {"admin", "manager", "member"}

  function ParseName(s: string): (r: Option<Role>)
    ensures r.Some? <==> s in NameValues
    ensures r.Some? ==> Name(r.value) == s
  {
    if s == "admin" then Some(Admin)
    else if s == "manager" then Some(Manager)
    else if s == "member" then Some(Member)
    else None
  }

  lemma NameRoundTrip(r: Role)
    ensures Name(r) in NameValues
    ensures ParseName(Name(r)) == Some(r)
  {
  }

  /** Display label shared by both spellings. */
  function Label(r: Role): string {
    match r
    case Admin => "Admin"
    case Manager => "Manager"
    case Member => "Member"
  }

  // ---------------------------------------------------------------------------
  // The flag mixin: every check reads the single optional `role` attribute.

  predicate IsInRole(role: Option<Role>, roles: seq<Role>) {
    role.Some? && role.value in roles
  }

  predicate IsAdmin(role: Option<Role>) { role == Some(Admin) }
  predicate IsManager(role: Option<Role>) { role == Some(Manager) }
  predicate IsMember(role: Option<Role>) { role == Some(Member) }

  predicate CanManageUsers(role: Option<Role>) { IsAdmin(role) }
  predicate CanManageTasks(role: Option<Role>) { IsAdmin(role) || IsManager(role) }
  predicate CanAssignTasks(role: Option<Role>) { IsAdmin(role) || IsManager(role) }

  /** `_is_in_role` holds exactly when the user has a role listed in `roles`;
      so never for an empty list and never for a user without a role. */
  lemma IsInRoleMeaning(role: Option<Role>, roles: seq<Role>)
    ensures IsInRole(role, roles) <==> exists i :: 0 <= i < |roles| && role == Some(roles[i])
    ensures roles == [] ==> !IsInRole(role, roles)
    ensures role.None? ==> !IsInRole(role, roles)
    ensures IsInRole(role, [Admin]) == IsAdmin(role)
  {
    if IsInRole(role, roles) {
      var i :| 0 <= i < |roles| && roles[i] == role.value;
    }
  }

  /** At most one of the three flags holds, and exactly one holds when a role is set. */
  lemma FlagsExclusive(role: Option<Role>)
    ensures !(IsAdmin(role) && IsManager(role))
    ensures !(IsAdmin(role) && IsMember(role))
    ensures !(IsManager(role) && IsMember(role))
    ensures role.Some? ==> IsAdmin(role) || IsManager(role) || IsMember(role)
  {
    if role.Some? {
      match role.value
      case Admin =>
      case Manager =>
      case Member =>
    }
  }

  /** The engine fails closed: no role, no flag and no capability. */
  lemma NoRoleNoCapability(role: Option<Role>)
    requires role.None? || IsMember(role)
    ensures !CanManageUsers(role) && !CanManageTasks(role) && !CanAssignTasks(role)
    ensures role.None? ==> !IsAdmin(role) && !IsManager(role) && !IsMember(role)
  {
  }

  lemma CapabilityImplications(role: Option<Role>)
    ensures CanManageUsers(role) <==> role == Some(Admin)
    ensures CanManageTasks(role) == CanAssignTasks(role)
    ensures CanManageTasks(role) <==> role == Some(Admin) || role == Some(Manager)
    ensures CanManageUsers(role) ==> CanManageTasks(role) && CanAssignTasks(role)
  {
  }

  // ---------------------------------------------------------------------------
  // The capability table as a static lookup, the reference the flags must match.

  datatype Capability = ManageUsers | ManageTasks | AssignTasks

  function CapabilityTable(r: Role): set<Capability> {
    match r
    case Admin => {ManageUsers, ManageTasks, AssignTasks}
    case Manager => {ManageTasks, AssignTasks}
    case Member => {}
  }

  function Capabilities(role: Option<Role>): set<Capability> {
    if role.Some? then CapabilityTable(role.value) else {}
  }

  /** The three capability methods compute exactly the table, for every role and for no role. */
  lemma FlagsMatchTable(role: Option<Role>)
    ensures CanManageUsers(role) <==> ManageUsers in Capabilities(role)
    ensures CanManageTasks(role) <==> ManageTasks in Capabilities(role)
    ensures CanAssignTasks(role) <==> AssignTasks in Capabilities(role)
  {
  }

  // ---------------------------------------------------------------------------
  // The `Role` table and the user's nullable foreign key to it.

  datatype RoleRow = RoleRow(name: string, description: string)

  predicate RowIsAdmin(role: Option<RoleRow>) { role.Some? && role.value.name == Name(Admin) }
  predicate RowIsManager(role: Option<RoleRow>) { role.Some? && role.value.name == Name(Manager) }
  predicate RowIsMember(role: Option<RoleRow>) { role.Some? && role.value.name == Name(Member) }

  predicate RowCanManageUsers(role: Option<RoleRow>) { RowIsAdmin(role) }
  predicate RowCanManageTasks(role: Option<RoleRow>) { RowIsAdmin(role) || RowIsManager(role) }
  predicate RowCanAssignTasks(role: Option<RoleRow>) { RowIsAdmin(role) || RowIsManager(role) }

  /** The role a row stands for; a row whose name is not one of the choices stands for none. */
  function RoleOfRow(role: Option<RoleRow>): (r: Option<Role>)
    ensures role.None? ==> r.None?
    ensures r.Some? ==> role.Some? && role.value.name == Name(r.value)
  {
    if role.None? then None else ParseName(role.value.name)
  }

  /** The row-based flags and capabilities are the enum-based ones, read through the row's name. */
  lemma {:induction false} RowFlagsAgree(role: Option<RoleRow>)
    ensures RowIsAdmin(role) == IsAdmin(RoleOfRow(role))
    ensures RowIsManager(role) == IsManager(RoleOfRow(role))
    ensures RowIsMember(role) == IsMember(RoleOfRow(role))
    ensures RowCanManageUsers(role) == CanManageUsers(RoleOfRow(role))
    ensures RowCanManageTasks(role) == CanManageTasks(RoleOfRow(role))
    ensures RowCanAssignTasks(role) == CanAssignTasks(RoleOfRow(role))
  {
  }

  /** Row flags are false for a null role, and mutually exclusive since they compare one name. */
  lemma RowFlagsExclusive(role: Option<RoleRow>)
    ensures role.None? ==> !RowIsAdmin(role) && !RowIsManager(role) && !RowIsMember(role)
    ensures !(RowIsAdmin(role) && RowIsManager(role))
    ensures !(RowIsAdmin(role) && RowIsMember(role))
    ensures !(RowIsManager(role) && RowIsMember(role))
    ensures !RowIsAdmin(role) && !RowIsManager(role) ==> !RowCanManageUsers(role) && !RowCanManageTasks(role) && !RowCanAssignTasks(role)
  {
  }

  /** A `Role` table whose names come from the choices and are unique (the `unique=True` constraint). */
  predicate RoleTableValid(rows: seq<RoleRow>) {
    && (forall i | 0 <= i < |rows| :: rows[i].name in NameValues)
    && (forall i, j | 0 <= i < j < |rows| :: rows[i].name != rows[j].name)
  }

  function RowNames(rows: seq<RoleRow>): (names: seq<string>)
    ensures |names| == |rows|
    ensures forall i | 0 <= i < |rows| :: names[i] == rows[i].name
  {
    seq(|rows|, i requires 0 <= i < |rows| => rows[i].name)
  }

  /** Such a table has at most three rows, one per role. */
  lemma AtMostThreeRoleRows(rows: seq<RoleRow>)
    requires RoleTableValid(rows)
    ensures |rows| <= 3
  {
    var names := RowNames(rows);
    assert Distinct(names);
    DistinctCard(names);
    assert Elements(names) <= NameValues;
    SubsetCard(Elements(names), NameValues);
  }
}
