/** The user endpoints: which permission classes guard each action, which users
    a requester can list (role visibility, then the `role` and `search` query
    parameters), and the role change an administrator performs. */
module UserViews {
  import opened Util
  import opened Roles
  import opened Accounts
  import P = Permissions

  // ---------------------------------------------------------------------------
  // Permissions per action

  const OpenActions: set<string> := {"list", "retrieve", "profile", "update_profile"}

  function UserPermissions(action: string): seq<P.PermissionClass> {
    if action in OpenActions then [P.IsAuthenticated]
    else [P.IsAuthenticated, P.CanManageUsers]
  }

  /** Reading users and one's own profile needs only authentication; every other action,
      including the mutations and `change_role`, needs an administrator. */
  lemma {:induction false} UserPermissionsMeaning(action: string, req: P.Requester)
    ensures action in OpenActions ==> (P.ViewAllows(UserPermissions(action), req) <==> req.Authenticated?)
    ensures action !in OpenActions ==>
      (P.ViewAllows(UserPermissions(action), req) <==> req.Authenticated? && IsAdmin(req.actor.role))
  {
    var perms := UserPermissions(action);
    assert perms[0] == P.IsAuthenticated;
    if action !in OpenActions {
      assert perms[1] == P.CanManageUsers;
    }
  }

  // ---------------------------------------------------------------------------
  // The user queryset

  /** Rows a requester may see before any query parameter applies: every row for an
      admin, managers and members for a manager, the requester's own row otherwise. */
  predicate RoleVisible(me: Actor, u: UserData) {
    if IsManager(me.role) then u.role == Some(Manager) || u.role == Some(Member)
    else if !IsAdmin(me.role) then u.id == me.id
    else true
  }

  /** The `role` query parameter; an absent or empty parameter keeps every row. */
  predicate RoleParamMatches(roleParam: Option<string>, u: UserData) {
    roleParam.None? || roleParam.value == "" || (u.role.Some? && Choice(u.role.value) == roleParam.value)
  }

  /** The `search` query parameter: e-mail or user name contains it, ignoring case. */
  predicate SearchMatches(search: Option<string>, u: UserData) {
    search.None? || search.value == ""
    || ContainsIgnoringCase(u.email, search.value) || ContainsIgnoringCase(u.username, search.value)
  }

  function Visible(me: Actor): UserData -> bool {
    (u: UserData) => RoleVisible(me, u)
  }

  function TeamRoles(): UserData -> bool {
    (u: UserData) => u.role == Some(Manager) || u.role == Some(Member)
  }

  function Self(me: Actor): UserData -> bool {
    (u: UserData) => u.id == me.id
  }

  function WithRole(r: string): UserData -> bool {
    (u: UserData) => u.role.Some? && Choice(u.role.value) == r
  }

  function RoleParamTest(roleParam: Option<string>): UserData -> bool {
    (u: UserData) => RoleParamMatches(roleParam, u)
  }

  function Matching(search: string): UserData -> bool {
    (u: UserData) => ContainsIgnoringCase(u.email, search) || ContainsIgnoringCase(u.username, search)
  }

  function SearchTest(search: Option<string>): UserData -> bool {
    (u: UserData) => SearchMatches(search, u)
  }

  function Listed(me: Actor, roleParam: Option<string>, search: Option<string>): UserData -> bool {
    (u: UserData) => RoleVisible(me, u) && RoleParamMatches(roleParam, u) && SearchMatches(search, u)
  }

  /** `get_queryset`: the queryset is narrowed step by step. The result keeps the stored
      order and holds exactly the rows that pass all three filters. */
  method GetQueryset(me: Actor, users: seq<UserData>, roleParam: Option<string>, search: Option<string>)
    returns (qs: seq<UserData>)
    ensures forall u :: u in qs <==>
      u in users && RoleVisible(me, u) && RoleParamMatches(roleParam, u) && SearchMatches(search, u)
    ensures IsSubsequence(qs, users)
  {
    qs := users;
    if IsManager(me.role) {
      qs := Filter(qs, TeamRoles());
    } else if !IsAdmin(me.role) {
      qs := Filter(qs, Self(me));
    }
    VisibilityPass(users, me);
    ghost var visible := qs;
    assert visible == Filter(users, Visible(me));
    if roleParam.Some? && roleParam.value != "" {
      qs := Filter(qs, WithRole(roleParam.value));
    }
    RoleParamPass(visible, roleParam);
    ghost var withRole := qs;
    assert withRole == Filter(visible, RoleParamTest(roleParam));
    if search.Some? && search.value != "" {
      qs := Filter(qs, Matching(search.value));
    }
    SearchPass(withRole, search);
    assert qs == Filter(withRole, SearchTest(search));
    ListedFacts(users, me, roleParam, search);
  }

  /** The visibility pass keeps exactly the rows `RoleVisible` accepts. */
  lemma VisibilityPass(users: seq<UserData>, me: Actor)
    ensures (if IsManager(me.role) then Filter(users, TeamRoles())
             else if !IsAdmin(me.role) then Filter(users, Self(me))
             else users) == Filter(users, Visible(me))
  {
    if IsManager(me.role) {
      FilterSameTest(users, TeamRoles(), Visible(me));
    } else if !IsAdmin(me.role) {
      FilterSameTest(users, Self(me), Visible(me));
    } else {
      FilterAll(users, Visible(me));
    }
  }

  /** The `role` pass keeps exactly the rows `RoleParamMatches` accepts. */
  lemma RoleParamPass(xs: seq<UserData>, roleParam: Option<string>)
    ensures (if roleParam.Some? && roleParam.value != "" then Filter(xs, WithRole(roleParam.value)) else xs)
            == Filter(xs, RoleParamTest(roleParam))
  {
    if roleParam.Some? && roleParam.value != "" {
      FilterSameTest(xs, WithRole(roleParam.value), RoleParamTest(roleParam));
    } else {
      FilterAll(xs, RoleParamTest(roleParam));
    }
  }

  /** The `search` pass keeps exactly the rows `SearchMatches` accepts. */
  lemma SearchPass(xs: seq<UserData>, search: Option<string>)
    ensures (if search.Some? && search.value != "" then Filter(xs, Matching(search.value)) else xs)
            == Filter(xs, SearchTest(search))
  {
    if search.Some? && search.value != "" {
      FilterSameTest(xs, Matching(search.value), SearchTest(search));
    } else {
      FilterAll(xs, SearchTest(search));
    }
  }

  /** The three passes together keep, in order, exactly the listed rows. */
  lemma ListedFacts(users: seq<UserData>, me: Actor, roleParam: Option<string>, search: Option<string>)
    ensures Filter(Filter(Filter(users, Visible(me)), RoleParamTest(roleParam)), SearchTest(search))
            == Filter(users, Listed(me, roleParam, search))
    ensures IsSubsequence(Filter(users, Listed(me, roleParam, search)), users)
    ensures forall u :: u in Filter(users, Listed(me, roleParam, search)) <==>
      u in users && RoleVisible(me, u) && RoleParamMatches(roleParam, u) && SearchMatches(search, u)
  {
    var listed := Listed(me, roleParam, search);
    var afterRole := (u: UserData) => RoleVisible(me, u) && RoleParamMatches(roleParam, u);
    FilterFilter(users, Visible(me), RoleParamTest(roleParam), afterRole);
    FilterFilter(users, afterRole, SearchTest(search), listed);
    FilterIsSubsequence(users, listed);
    FilterMembers(users, listed);
  }

  /** Without query parameters: an admin sees everyone, a manager exactly the managers and
      members, anyone else exactly themselves. */
  lemma RoleVisibility(me: Actor, u: UserData)
    ensures IsAdmin(me.role) ==> RoleVisible(me, u)
    ensures IsManager(me.role) ==> (RoleVisible(me, u) <==> u.role in {Some(Manager), Some(Member)})
    ensures !IsAdmin(me.role) && !IsManager(me.role) ==> (RoleVisible(me, u) <==> u.id == me.id)
    ensures IsManager(me.role) ==> !RoleVisible(me, u) || u.role != Some(Admin)
  {
  }

  // ---------------------------------------------------------------------------
  // Changing a role

  datatype ChangeRoleResponse =
    | RoleRequired
    | InvalidRole
    | RoleChanged(message: string, user: UserData)

  /** `change_role` on the looked-up user: a missing or empty value and a value outside the
      choices are refused with nothing changed; otherwise only the role changes. */
  method ChangeRole(target: User, roleValue: Option<string>) returns (resp: ChangeRoleResponse)
    modifies target
    ensures roleValue.None? || roleValue.value == "" ==> resp == RoleRequired
    ensures roleValue.Some? && roleValue.value != "" && roleValue.value !in ChoiceValues ==> resp == InvalidRole
    ensures !resp.RoleChanged? ==> target.Data() == old(target.Data())
    ensures resp.RoleChanged? <==> roleValue.Some? && roleValue.value in ChoiceValues
    ensures resp.RoleChanged? ==>
      && target.Data() == old(target.Data()).(role := ParseChoice(roleValue.value))
      && resp.user == target.Data()
      && resp.message == "User role changed to " + Label(ParseChoice(roleValue.value).value)
  {
    if roleValue.None? || roleValue.value == "" {
      return RoleRequired;
    }
    var parsed := ParseChoice(roleValue.value);
    if parsed.None? {
      return InvalidRole;
    }
    target.role := parsed;
    resp := RoleChanged("User role changed to " + Label(parsed.value), target.Data());
  }
}
