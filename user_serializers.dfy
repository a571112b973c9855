/** The user serializers: the general one (create and update), the
    registration one (validation, role clamping and `is_staff`) and the
    profile one (which cannot touch e-mail or role). */
module UserSerializers {
  import opened Util
  import opened Roles
  import opened Accounts

  // ---------------------------------------------------------------------------
  // Validated data of the general user serializer

  /** The writable fields of the general serializer. */
  datatype Field =
    | Email | Username | FirstName | MiddleName | LastName
    | RoleField | ProfileImage | PhoneNumber | IsActive | Password

  datatype Value = Text(text: string) | RoleValue(role: Role) | Flag(flag: bool)

  /** The kind of value each field validates to. */
  predicate Fits(f: Field, v: Value) {
    match f
    case RoleField => v.RoleValue?
    case IsActive => v.Flag?
    case _ => v.Text?
  }

  predicate WellTyped(m: map<Field, Value>) {
    forall f | f in m :: Fits(f, m[f])
  }

  /** The value a row holds for an attribute field. */
  function FieldOf(d: UserData, f: Field): (v: Value)
    requires f != Password
    requires f == RoleField ==> d.role.Some?
    ensures Fits(f, v)
  {
    match f
    case Email => Text(d.email)
    case Username => Text(d.username)
    case FirstName => Text(d.firstName)
    case MiddleName => Text(d.middleName)
    case LastName => Text(d.lastName)
    case RoleField => RoleValue(d.role.value)
    case ProfileImage => Text(d.profileImage)
    case PhoneNumber => Text(d.phoneNumber)
    case IsActive => Flag(d.isActive)
  }

  /** `setattr(instance, attr, value)` for one attribute field. */
  function SetField(d: UserData, f: Field, v: Value): UserData
    requires f != Password && Fits(f, v)
  {
    match f
    case Email => d.(email := v.text)
    case Username => d.(username := v.text)
    case FirstName => d.(firstName := v.text)
    case MiddleName => d.(middleName := v.text)
    case LastName => d.(lastName := v.text)
    case RoleField => d.(role := Some(v.role))
    case ProfileImage => d.(profileImage := v.text)
    case PhoneNumber => d.(phoneNumber := v.text)
    case IsActive => d.(isActive := v.flag)
  }

  /** Every attribute listed in `m` takes its value from `m`; the others keep theirs. */
  function Updated(d: UserData, m: map<Field, Value>): UserData
    requires WellTyped(m)
  {
    UserData(
      d.id,
      if Email in m then m[Email].text else d.email,
      if Username in m then m[Username].text else d.username,
      if FirstName in m then m[FirstName].text else d.firstName,
      if MiddleName in m then m[MiddleName].text else d.middleName,
      if LastName in m then m[LastName].text else d.lastName,
      if RoleField in m then Some(m[RoleField].role) else d.role,
      if ProfileImage in m then m[ProfileImage].text else d.profileImage,
      if PhoneNumber in m then m[PhoneNumber].text else d.phoneNumber,
      if IsActive in m then m[IsActive].flag else d.isActive,
      d.isStaff,
      d.credential)
  }

  /** Each listed attribute field reads back the value given; each unlisted one keeps its
      value; the key, the staff flag and the password are untouched. */
  lemma UpdatedMeaning(d: UserData, m: map<Field, Value>, f: Field)
    requires WellTyped(m) && f != Password
    requires f == RoleField ==> d.role.Some? || RoleField in m
    ensures var r := Updated(d, m);
      && (f in m ==> FieldOf(r, f) == m[f])
      && (f !in m ==> FieldOf(r, f) == FieldOf(d, f))
      && r.id == d.id && r.isStaff == d.isStaff && r.credential == d.credential
  {
  }

  /** Setting the attribute fields one by one, in any order, builds `Updated`. */
  lemma UpdatedStep(d: UserData, m: map<Field, Value>, f: Field, v: Value)
    requires WellTyped(m) && f != Password && Fits(f, v) && f !in m
    ensures WellTyped(m[f := v])
    ensures Updated(d, m[f := v]) == SetField(Updated(d, m), f, v)
  {
  }

  /** What `update` leaves in the row: the attribute fields of `m`, and a new password
      only when a non-empty one is given. */
  function UpdateResult(d: UserData, m: map<Field, Value>): (r: UserData)
    requires WellTyped(m)
    ensures r.id == d.id && r.isStaff == d.isStaff
    ensures r.credential != d.credential ==> Password in m && m[Password].text != ""
    ensures Password in m && m[Password].text != "" ==> CheckPassword(r.credential, m[Password].text)
  {
    var u := Updated(d, m - {Password});
    if Password in m && m[Password].text != "" then u.(credential := Hashed(m[Password].text)) else u
  }

  /** Updating twice with the same data is updating once; updating with nothing changes nothing. */
  lemma UpdateIdempotent(d: UserData, m: map<Field, Value>)
    requires WellTyped(m)
    ensures UpdateResult(UpdateResult(d, m), m) == UpdateResult(d, m)
    ensures UpdateResult(d, map[]) == d
  {
  }

  /** `setattr` on the instance. */
  method SetAttr(u: User, f: Field, v: Value)
    requires f != Password && Fits(f, v)
    modifies u
    ensures u.Data() == SetField(old(u.Data()), f, v)
  {
    match f
    case Email => u.email := v.text;
    case Username => u.username := v.text;
    case FirstName => u.firstName := v.text;
    case MiddleName => u.middleName := v.text;
    case LastName => u.lastName := v.text;
    case RoleField => u.role := Some(v.role);
    case ProfileImage => u.profileImage := v.text;
    case PhoneNumber => u.phoneNumber := v.text;
    case IsActive => u.isActive := v.flag;
  }

  /** `UserSerializer.update`: the password is taken out, every other validated field is
      assigned to the instance, then the password is set if one was given. */
  method Update(instance: User, validated: map<Field, Value>)
    requires WellTyped(validated)
    modifies instance
    ensures instance.Data() == UpdateResult(old(instance.Data()), validated)
  {
    var password := if Password in validated then Some(validated[Password].text) else None;
    var rest := validated - {Password};
    var pending := rest.Keys;
    while pending != {}
      invariant pending <= rest.Keys
      invariant instance.Data() == Updated(old(instance.Data()), rest - pending)
      decreases pending
    {
      var f :| f in pending;
      UpdatedStep(old(instance.Data()), rest - pending, f, rest[f]);
      SetAttr(instance, f, rest[f]);
      PendingStep(rest, pending, f);
      pending := pending - {f};
    }
    assert rest - pending == rest;
    if password.Some? && password.value != "" {
      instance.credential := Hashed(password.value);
    }
  }

  lemma PendingStep(rest: map<Field, Value>, pending: set<Field>, f: Field)
    requires f in pending && pending <= rest.Keys
    ensures rest - (pending - {f}) == (rest - pending)[f := rest[f]]
  {
  }

  /** The row `User.objects.create` starts from when a field is not given. */
  function Defaults(id: UserId): UserData {
    UserData(id, "", "", "", "", "", None, "", "", true, false, NoPassword)
  }

  /** `UserSerializer.create`: the row is created from the validated fields, and a password
      is set only when a non-empty one is given; so creating is updating the default row. */
  method Create(id: UserId, validated: map<Field, Value>) returns (u: User)
    requires WellTyped(validated)
    ensures fresh(u)
    ensures u.Data() == UpdateResult(Defaults(id), validated)
    ensures u.Data().credential.Hashed? <==> Password in validated && validated[Password].text != ""
  {
    var password := if Password in validated then Some(validated[Password].text) else None;
    u := new User.Load(Updated(Defaults(id), validated - {Password}));
    if password.Some? && password.value != "" {
      u.credential := Hashed(password.value);
    }
  }

  // ---------------------------------------------------------------------------
  // Registration

  /** The raw registration payload; `None` is an absent key. */
  datatype RegistrationInput = RegistrationInput(
    email: Option<string>,
    username: Option<string>,
    password: Option<string>,
    passwordConfirm: Option<string>,
    firstName: Option<string>,
    middleName: Option<string>,
    lastName: Option<string>,
    role: Option<string>)

  /** Validated registration data; `role` holds the choice value. */
  datatype Registration = Registration(
    email: string,
    username: string,
    password: string,
    passwordConfirm: string,
    firstName: Option<string>,
    middleName: Option<string>,
    lastName: Option<string>,
    role: string)

  /** The keys under which registration errors are reported. */
  datatype RegistrationKey = EmailKey | UsernameKey | PasswordKey | PasswordConfirmKey | RoleKey

  function KeyName(k: RegistrationKey): string {
    match k
    case EmailKey => "email"
    case UsernameKey => "username"
    case PasswordKey => "password"
    case PasswordConfirmKey => "password_confirm"
    case RoleKey => "role"
  }

  datatype Validation = Invalid(errors: set<RegistrationKey>) | Valid(data: Registration)

  const RegistrationRoleChoices: set<string> := {"MEMBER", "MANAGER"}

  function CleanOptional(v: Option<string>): Option<string> {
    if v.Some? then Some(Clean(v.value)) else None
  }

  /** The payload as the character fields see it: every string stripped; the role, a
      choice field, is taken as sent. */
  function Stripped(input: RegistrationInput): RegistrationInput {
    RegistrationInput(
      CleanOptional(input.email), CleanOptional(input.username),
      CleanOptional(input.password), CleanOptional(input.passwordConfirm),
      CleanOptional(input.firstName), CleanOptional(input.middleName), CleanOptional(input.lastName),
      input.role)
  }

  /** A required character field of the stripped payload: present and not blank. */
  predicate Given(v: Option<string>) {
    v.Some? && v.value != ""
  }

  /** The character class of the user-name validator, `[\w.@+-]`, on ASCII text: letters,
      digits, the underscore and the four punctuation marks. */
  predicate IsUsernameChar(c: char) {
    IsAsciiLower(c) || IsAsciiUpper(c) || IsAsciiDigit(c) || c == '_' || c == '.' || c == '@' || c == '+' || c == '-'
  }

  /** The user-name column's own checks: at most 150 characters, each one of the validator's class. */
  predicate UsernameValid(username: string) {
    |username| <= 150 && forall i | 0 <= i < |username| :: IsUsernameChar(username[i])
  }

  /** The length limit of the e-mail column. */
  const EmailMaxLength := 254

  /** The uniqueness checks of the e-mail and user-name columns. */
  predicate EmailFree(existing: seq<UserData>, email: string) {
    forall i | 0 <= i < |existing| :: existing[i].email != email
  }

  predicate UsernameFree(existing: seq<UserData>, username: string) {
    forall i | 0 <= i < |existing| :: existing[i].username != username
  }

  /** Per-field errors of the stripped payload `s`, checked before the object-level
      `validate`: required and non-blank fields, the column limits of e-mail and user name,
      their uniqueness among the `existing` rows, the role choices. The password validators
      are an oracle: `passwordAccepted` says whether they pass. */
  function FieldErrors(s: RegistrationInput, passwordAccepted: bool, existing: seq<UserData>)
    : (errors: set<RegistrationKey>)
    ensures EmailKey !in errors <==>
      Given(s.email) && |s.email.value| <= EmailMaxLength && EmailFree(existing, s.email.value)
    ensures UsernameKey !in errors <==>
      Given(s.username) && UsernameValid(s.username.value) && UsernameFree(existing, s.username.value)
    ensures PasswordKey !in errors <==> Given(s.password) && passwordAccepted
    ensures PasswordConfirmKey !in errors <==> Given(s.passwordConfirm)
    ensures RoleKey !in errors <==> s.role.None? || s.role.value in RegistrationRoleChoices
  {
    var emailOk := Given(s.email) && |s.email.value| <= EmailMaxLength && EmailFree(existing, s.email.value);
    var usernameOk := Given(s.username) && UsernameValid(s.username.value) && UsernameFree(existing, s.username.value);
    var passwordOk, confirmOk := Given(s.password) && passwordAccepted, Given(s.passwordConfirm);
    var roleOk := s.role.None? || s.role.value in RegistrationRoleChoices;
    (if emailOk then {} else {EmailKey})
    + (if usernameOk then {} else {UsernameKey})
    + (if passwordOk then {} else {PasswordKey})
    + (if confirmOk then {} else {PasswordConfirmKey})
    + (if roleOk then {} else {RoleKey})
  }

  /** Field validation, then `validate`: the two passwords must match, else an error
      keyed `password`. An absent role becomes MEMBER. */
  function ValidateStripped(s: RegistrationInput, passwordAccepted: bool, existing: seq<UserData>): Validation {
    var errors := FieldErrors(s, passwordAccepted, existing);
    if errors != {} then Invalid(errors)
    else if s.password.value != s.passwordConfirm.value then Invalid({PasswordKey})
    else Valid(Registration(
      s.email.value, s.username.value, s.password.value, s.passwordConfirm.value,
      s.firstName, s.middleName, s.lastName,
      if s.role.Some? then s.role.value else Choice(Member)))
  }

  function ValidateRegistration(input: RegistrationInput, passwordAccepted: bool, existing: seq<UserData>)
    : Validation
  {
    ValidateStripped(Stripped(input), passwordAccepted, existing)
  }

  /** Registration passes exactly when every field is valid and the passwords match; a
      mismatch on otherwise valid input is reported under `password` alone. */
  lemma {:induction false} RegistrationValidationMeaning(s: RegistrationInput, passwordAccepted: bool,
                                                        existing: seq<UserData>)
    ensures var v := ValidateStripped(s, passwordAccepted, existing);
      && (v.Valid? <==>
           && Given(s.email) && |s.email.value| <= EmailMaxLength && EmailFree(existing, s.email.value)
           && Given(s.username) && UsernameValid(s.username.value) && UsernameFree(existing, s.username.value)
           && Given(s.password) && passwordAccepted && Given(s.passwordConfirm)
           && (s.role.None? || s.role.value in RegistrationRoleChoices)
           && s.password.value == s.passwordConfirm.value)
      && (v.Valid? ==> v.data.password == v.data.passwordConfirm && v.data.role in RegistrationRoleChoices)
      && (v.Valid? && s.role.None? ==> v.data.role == "MEMBER")
      && (v.Valid? ==> EmailFree(existing, v.data.email) && UsernameFree(existing, v.data.username))
      && (v.Valid? ==> UsernameValid(v.data.username))
      && (FieldErrors(s, passwordAccepted, existing) == {} && s.password.value != s.passwordConfirm.value
          ==> v == Invalid({PasswordKey}))
  {
    var errors := FieldErrors(s, passwordAccepted, existing);
    if errors == {} {
      assert EmailKey !in errors && UsernameKey !in errors && PasswordConfirmKey !in errors;
    } else {
      var e :| e in errors;
    }
  }

  /** Blank means blank after stripping: a password made only of spaces is refused as if
      it were absent. */
  lemma {:induction false} BlankAfterStripping(v: string)
    ensures Given(CleanOptional(Some(v))) <==> exists i :: 0 <= i < |v| && !IsPyWhitespace(v[i])
  {
  }

  /** The role kept at creation: MEMBER or MANAGER as given, anything else MEMBER. */
  function ClampRole(value: string): (r: Role)
    ensures r != Admin
    ensures r == Manager <==> value == Choice(Manager)
  {
    if value in RegistrationRoleChoices then ParseChoice(value).value else Member
  }

  /** The position of the last `@` of `s`. */
  function LastAt(s: string): (r: Option<nat>)
    ensures r.Some? ==> r.value < |s| && s[r.value] == '@' && forall i | r.value < i < |s| :: s[i] != '@'
    ensures r.None? ==> forall i | 0 <= i < |s| :: s[i] != '@'
    decreases |s|
  {
    if s == [] then None
    else if s[|s| - 1] == '@' then Some(|s| - 1)
    else LastAt(s[..|s| - 1])
  }

  /** `t` with every character after position `k` lower-cased. */
  function LowerAfter(t: string, k: nat): (r: string)
    ensures |r| == |t|
    ensures forall i | 0 <= i < |t| && i <= k :: r[i] == t[i]
    ensures forall i | k < i < |t| :: r[i] == LowerChar(t[i]) && !IsAsciiUpper(r[i])
  {
    seq(|t|, i requires 0 <= i < |t| => if i <= k then t[i] else LowerChar(t[i]))
  }

  /** The user manager's `normalize_email`, which `create_user` applies: the address is
      stripped and split at its last `@`, and the domain part lower-cased; an address
      without `@` is kept exactly as given. */
  function NormalizeEmail(email: string): (r: string)
    ensures LastAt(Clean(email)).None? ==> r == email
    ensures LastAt(Clean(email)).Some? ==>
      var t, k := Clean(email), LastAt(Clean(email)).value;
      && |r| == |t|
      && (forall i | 0 <= i <= k :: r[i] == t[i])
      && (forall i | k < i < |r| :: r[i] == LowerChar(t[i]) && !IsAsciiUpper(r[i]))
  {
    var t := Clean(email);
    match LastAt(t)
    case None => email
    case Some(k) => LowerAfter(t, k)
  }

  /** Lower-casing a character neither makes nor unmakes an `@` or whitespace, and a second
      lower-casing changes nothing. */
  lemma LowerCharKeepsClass(c: char)
    ensures LowerChar(c) == '@' <==> c == '@'
    ensures IsPyWhitespace(LowerChar(c)) <==> IsPyWhitespace(c)
    ensures LowerChar(LowerChar(c)) == LowerChar(c)
    ensures !IsAsciiUpper(LowerChar(c))
  {
  }

  /** Lower-casing the part of a stripped string `t` after position `k`, which holds an
      `@`, gives a stripped string whose last `@` is still at `k`, if it was so in `t`. */
  lemma {:induction false} LowerDomainShape(t: string, k: nat, r: string)
    requires k < |t| && t[k] == '@' && !IsPyWhitespace(t[0]) && !IsPyWhitespace(t[|t| - 1])
    requires |r| == |t| && (forall i | 0 <= i <= k :: r[i] == t[i])
    requires forall i | k < i < |r| :: r[i] == LowerChar(t[i])
    ensures Clean(r) == r
    ensures LastAt(t) == Some(k) ==> LastAt(r) == Some(k)
  {
    LowerCharKeepsClass(t[|t| - 1]);
    TrimKeepsTrimmed(r, IsPyWhitespace);
    if LastAt(t) == Some(k) {
      forall i | k < i < |r| ensures r[i] != '@' {
        LowerCharKeepsClass(t[i]);
      }
    }
  }

  /** A stripped address whose domain has no upper-case letter is its own normal form. */
  lemma {:induction false} NormalFormFixed(r: string, k: nat)
    requires Clean(r) == r && LastAt(r) == Some(k)
    requires forall i | k < i < |r| :: !IsAsciiUpper(r[i])
    ensures NormalizeEmail(r) == r
  {
    var r2 := LowerAfter(r, k);
    assert r2 == r by {
      assert forall i | 0 <= i < |r| :: r2[i] == r[i];
    }
    assert NormalizeEmail(r) == LowerAfter(Clean(r), k);
  }

  /** The normal form of an address with an `@`: stripped, with its last `@` where the
      stripped input had it, and no upper-case letter after it. */
  lemma {:induction false} NormalFormShape(email: string)
    requires LastAt(Clean(email)).Some?
    ensures var r, k := NormalizeEmail(email), LastAt(Clean(email)).value;
      && Clean(r) == r && LastAt(r) == Some(k)
      && forall i | k < i < |r| :: !IsAsciiUpper(r[i])
  {
    CleanEnds(email);
    LowerDomainShape(Clean(email), LastAt(Clean(email)).value, NormalizeEmail(email));
  }

  /** Normalising an address already normalised changes nothing, so every stored address is
      a fixed point of the normalisation. */
  lemma {:induction false} NormalizeEmailIdempotent(email: string)
    ensures NormalizeEmail(NormalizeEmail(email)) == NormalizeEmail(email)
  {
    if LastAt(Clean(email)).Some? {
      NormalFormShape(email);
      NormalFormFixed(NormalizeEmail(email), LastAt(Clean(email)).value);
    }
  }

  /** The stored row of a registration: never an admin, staff exactly when a member, holding
      the hash of the chosen password and the normalised address; the confirmation is not
      stored. */
  function RegisteredUser(id: UserId, v: Registration): (u: UserData)
    ensures u.role == Some(ClampRole(v.role))
    ensures u.role == Some(Member) || u.role == Some(Manager)
    ensures u.isStaff <==> u.role == Some(Member)
    ensures CheckPassword(u.credential, v.password)
    ensures u.isActive
    ensures u.email == NormalizeEmail(v.email) && u.username == v.username
  {
    var role := ClampRole(v.role);
    UserData(id, NormalizeEmail(v.email), v.username,
             if v.firstName.Some? then v.firstName.value else "",
             if v.middleName.Some? then v.middleName.value else "",
             if v.lastName.Some? then v.lastName.value else "",
             Some(role), "", "", true, role == Member, Hashed(v.password))
  }

  /** `UserRegistrationSerializer.create`: the confirmation is dropped, the role clamped, the
      user created with `is_staff` derived from the role, and raised again for a member. */
  method CreateRegistered(id: UserId, v: Registration) returns (u: User)
    ensures fresh(u)
    ensures u.Data() == RegisteredUser(id, v)
  {
    var roleValue := v.role;
    if roleValue !in RegistrationRoleChoices {
      roleValue := Choice(Member);
    }
    var role := ParseChoice(roleValue).value;
    var isStaff := role == Member;
    u := new User.Load(UserData(id, NormalizeEmail(v.email), v.username,
                                if v.firstName.Some? then v.firstName.value else "",
                                if v.middleName.Some? then v.middleName.value else "",
                                if v.lastName.Some? then v.lastName.value else "",
                                Some(role), "", "", true, isStaff, Hashed(v.password)));
    if role == Member {
      u.isStaff := true;
    }
  }

  /** A registration without a role or with MEMBER gives a staff member, one with MANAGER a
      manager without staff status; none gives an admin. */
  lemma RegistrationRoles(id: UserId, input: RegistrationInput, passwordAccepted: bool, existing: seq<UserData>)
    requires ValidateRegistration(input, passwordAccepted, existing).Valid?
    ensures var u := RegisteredUser(id, ValidateRegistration(input, passwordAccepted, existing).data);
      && u.role != Some(Admin)
      && (input.role.None? ==> u.role == Some(Member) && u.isStaff)
      && (input.role == Some("MEMBER") ==> u.role == Some(Member) && u.isStaff)
      && (input.role == Some("MANAGER") ==> u.role == Some(Manager) && !u.isStaff)
  {
    RegistrationValidationMeaning(Stripped(input), passwordAccepted, existing);
  }

  // ---------------------------------------------------------------------------
  // Profile

  /** Fields the profile serializer writes; `email` and `role` are read-only there, and the
      password is not one of its fields. */
  const ProfileWritable: set<Field> := {Username, FirstName, MiddleName, LastName, ProfileImage, PhoneNumber, IsActive}

  /** A partial profile update: read-only and unknown fields in the input are ignored. */
  function ProfileUpdate(d: UserData, m: map<Field, Value>): (r: UserData)
    requires WellTyped(m)
    ensures r.id == d.id && r.email == d.email && r.role == d.role && r.credential == d.credential
    ensures r.isStaff == d.isStaff
  {
    Updated(d, map f | f in m && f in ProfileWritable :: m[f])
  }

  /** A profile update is the general update restricted to the profile's writable fields. */
  lemma {:induction false} ProfileUpdateIsRestrictedUpdate(d: UserData, m: map<Field, Value>)
    requires WellTyped(m)
    ensures ProfileUpdate(d, m) == UpdateResult(d, map f | f in m && f in ProfileWritable :: m[f])
  {
    var restricted := map f | f in m && f in ProfileWritable :: m[f];
    assert restricted - {Password} == restricted;
  }
}
