/** The data migration that maps legacy role strings onto the three roles.
    Each stored user's role is upper-cased and looked up in two legacy sets:
    administrator titles become ADMIN, manager titles become MANAGER, and
    everything else, including no role, becomes MEMBER. The migration walks
    the users in place. */
module RoleMigration {
  import opened Util
  import opened Roles

  /** The part of a stored user the migration reads and writes. */
  datatype LegacyUser = LegacyUser(id: int, role: Option<string>, isStaff: bool)

  const LegacyAdminValues: set<string> :=
    {"SYSTEM_ADMIN", "DIRECTOR", "GOVERNOR", "COUNTY_SEC", "COUNTY_EXECUTIVE_SECRETARY"}
  const LegacyManagerValues: set<string> := {"DEPARTMENT_ADMIN", "CHIEF_OFFICER"}

  /** `(user.role or '').upper()`. */
  function LegacyKey(role: Option<string>): string {
    Upper(if role.Some? then role.value else "")
  }

  /** One user after the migration. */
  function Normalized(u: LegacyUser): (r: LegacyUser)
    ensures r.id == u.id
    ensures r.role.Some? && r.role.value in ChoiceValues
    ensures u.isStaff ==> r.isStaff
  {
    var key := LegacyKey(u.role);
    if key in LegacyAdminValues then u.(role := Some("ADMIN"), isStaff := true)
    else if key in LegacyManagerValues then u.(role := Some("MANAGER"), isStaff := true)
    else u.(role := Some("MEMBER"))
  }

  /** The three outcomes: a legacy administrator title becomes an ADMIN on the staff, a legacy
      manager title a MANAGER on the staff, anything else a MEMBER with the staff flag kept. */
  lemma NormalizedCases(u: LegacyUser)
    ensures LegacyKey(u.role) in LegacyAdminValues ==> Normalized(u) == u.(role := Some(Choice(Admin)), isStaff := true)
    ensures LegacyKey(u.role) in LegacyManagerValues ==> Normalized(u) == u.(role := Some(Choice(Manager)), isStaff := true)
    ensures LegacyKey(u.role) !in LegacyAdminValues && LegacyKey(u.role) !in LegacyManagerValues ==>
      Normalized(u) == u.(role := Some(Choice(Member)))
    ensures u.role.None? ==> Normalized(u) == u.(role := Some(Choice(Member)))
  {
    if u.role.None? {
      assert LegacyKey(u.role) == "";
    }
  }

  /** Upper-casing makes the lookup case-insensitive: a stored role and its upper-case
      spelling migrate alike, so `director` is recognised as `DIRECTOR`. */
  lemma {:induction false} LegacyLookupIgnoresCase(u: LegacyUser, v: string)
    requires u.role == Some(v)
    ensures Normalized(u.(role := Some(Upper(v)))) == Normalized(u)
  {
    UpperIdempotent(v);
    assert LegacyKey(Some(Upper(v))) == LegacyKey(u.role);
  }

  /** A second run is not harmless: the canonical ADMIN and MANAGER values are not legacy
      titles, so a second run turns every user into a MEMBER, keeping the staff flag of the
      first; any user the first run made an ADMIN or a MANAGER is demoted. */
  lemma {:induction false} NotIdempotent(u: LegacyUser)
    ensures Normalized(Normalized(u)) == Normalized(u).(role := Some(Choice(Member)))
    ensures Normalized(u).role != Some(Choice(Member)) ==> Normalized(Normalized(u)) != Normalized(u)
  {
    var r := Normalized(u);
    assert LegacyKey(r.role) in {"ADMIN", "MANAGER", "MEMBER"} by {
      assert Upper("ADMIN") == "ADMIN" && Upper("MANAGER") == "MANAGER" && Upper("MEMBER") == "MEMBER";
    }
  }

  function NormalizedAll(s: seq<LegacyUser>): (r: seq<LegacyUser>)
    ensures |r| == |s|
    ensures forall i | 0 <= i < |s| :: r[i] == Normalized(s[i])
  {
    seq(|s|, i requires 0 <= i < |s| => Normalized(s[i]))
  }

  /** `forwards_func`: every user is rewritten in place. */
  method ForwardsFunc(users: array<LegacyUser>)
    modifies users
    ensures users[..] == NormalizedAll(old(users[..]))
  {
    var i := 0;
    while i < users.Length
      invariant 0 <= i <= users.Length
      invariant forall k | 0 <= k < i :: users[k] == Normalized(old(users[k]))
      invariant forall k | i <= k < users.Length :: users[k] == old(users[k])
    {
      users[i] := Normalized(users[i]);
      i := i + 1;
    }
  }

  /** After the migration every user holds one of the three roles, and nobody has lost
      the staff flag. */
  lemma {:induction false} MigrationOutcome(before: seq<LegacyUser>)
    ensures var after := NormalizedAll(before);
      && (forall i | 0 <= i < |after| :: ParseChoice(after[i].role.value).Some?)
      && (forall i | 0 <= i < |after| :: before[i].isStaff ==> after[i].isStaff)
      && (forall i | 0 <= i < |after| :: after[i].id == before[i].id)
  {
    var after := NormalizedAll(before);
    forall i | 0 <= i < |after| ensures ParseChoice(after[i].role.value).Some? {
      assert after[i] == Normalized(before[i]);
    }
  }

  /** `reverse_func` does nothing: the legacy titles cannot be recovered. */
  method ReverseFunc(users: array<LegacyUser>)
    ensures users[..] == old(users[..])
  {
  }
}
