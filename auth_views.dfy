/** The account entry points: registration, login and logout.

    The stored accounts are a directory of rows whose ids, e-mails and user
    names are unique. Issuing and decoding JSON web tokens is an oracle: a
    refresh token decodes exactly when it was issued and has not been
    blacklisted. */
module AuthViews {
  import opened Util
  import opened Roles
  import opened Accounts
  import opened UserSerializers

  // ---------------------------------------------------------------------------
  // Login

  /** The uniqueness of the e-mail column. */
  predicate EmailsUnique(users: seq<UserData>) {
    forall i, j | 0 <= i < j < |users| :: users[i].email != users[j].email
  }

  /** `User.objects.get(email=...)`. */
  function FindByEmail(users: seq<UserData>, email: string): (r: Option<UserData>)
    ensures r.Some? ==> r.value in users && r.value.email == email
    ensures r.None? ==> forall i | 0 <= i < |users| :: users[i].email != email
  {
    if users == [] then None
    else if users[0].email == email then Some(users[0])
    else FindByEmail(users[1..], email)
  }

  datatype LoginResponse =
    | LoginRejected(status: nat, error: string)
    | LoggedIn(user: UserData)

  /** `login_view`: required fields, then the lookup, the password, and the active flag. */
  function Login(users: seq<UserData>, email: Option<string>, password: Option<string>): LoginResponse {
    if email.None? || email.value == "" || password.None? || password.value == "" then
      LoginRejected(400, "Email and password are required")
    else match FindByEmail(users, email.value)
      case None => LoginRejected(401, "Invalid credentials")
      case Some(u) =>
        if !CheckPassword(u.credential, password.value) then LoginRejected(401, "Invalid credentials")
        else if !u.isActive then LoginRejected(401, "User account is disabled")
        else LoggedIn(u)
  }

  /** A missing or empty e-mail or password is answered with 400 whatever accounts exist. */
  lemma LoginChecksFieldsFirst(users: seq<UserData>, others: seq<UserData>, email: Option<string>, password: Option<string>)
    requires email.None? || email.value == "" || password.None? || password.value == ""
    ensures Login(users, email, password) == LoginRejected(400, "Email and password are required")
    ensures Login(users, email, password) == Login(others, email, password)
  {
  }

  /** An unknown e-mail and a wrong password get the same answer, so a caller cannot tell
      which of the two was wrong. */
  lemma {:induction false} LoginFailuresAlike(users: seq<UserData>, unknown: string, known: UserData, wrong: string)
    requires unknown != "" && wrong != "" && known.email != ""
    requires forall i | 0 <= i < |users| :: users[i].email != unknown
    requires known in users && EmailsUnique(users)
    requires !CheckPassword(known.credential, wrong)
    ensures Login(users, Some(unknown), Some(wrong)) == Login(users, Some(known.email), Some(wrong))
    ensures Login(users, Some(unknown), Some(wrong)) == LoginRejected(401, "Invalid credentials")
  {
    FindUnique(users, known);
  }

  /** With unique e-mails the lookup finds the one row carrying the address. */
  lemma {:induction false} FindUnique(users: seq<UserData>, u: UserData)
    requires u in users && EmailsUnique(users)
    ensures FindByEmail(users, u.email) == Some(u)
  {
    if users[0] != u {
      assert u in users[1..];
      var k :| 0 <= k < |users| && users[k] == u;
      assert users[0].email != u.email;
      assert EmailsUnique(users[1..]) by {
        forall i, j | 0 <= i < j < |users[1..]| ensures users[1..][i].email != users[1..][j].email {
          assert users[1..][i] == users[i + 1] && users[1..][j] == users[j + 1];
        }
      }
      FindUnique(users[1..], u);
    }
  }

  /** Login succeeds exactly for an account with that e-mail whose password matches and
      which is active; "account disabled" is said exactly to a caller who knows the password
      of an inactive account, and every other failure is "invalid credentials". */
  lemma {:induction false} LoginMeaning(users: seq<UserData>, email: string, password: string)
    requires EmailsUnique(users) && email != "" && password != ""
    ensures Login(users, Some(email), Some(password)).LoggedIn? <==>
      exists u :: u in users && u.email == email && CheckPassword(u.credential, password) && u.isActive
    ensures Login(users, Some(email), Some(password)) == LoginRejected(401, "User account is disabled") <==>
      exists u :: u in users && u.email == email && CheckPassword(u.credential, password) && !u.isActive
    ensures !Login(users, Some(email), Some(password)).LoggedIn? &&
            Login(users, Some(email), Some(password)) != LoginRejected(401, "User account is disabled") ==>
      Login(users, Some(email), Some(password)) == LoginRejected(401, "Invalid credentials")
  {
    if u :| u in users && u.email == email && CheckPassword(u.credential, password) && !u.isActive {
      FindUnique(users, u);
    }
    if u :| u in users && u.email == email && CheckPassword(u.credential, password) && u.isActive {
      FindUnique(users, u);
    }
  }

  // ---------------------------------------------------------------------------
  // Registration

  /** The registration answers: 400 with the invalid fields, 500 when saving the row breaks
      the e-mail column's uniqueness, 201 with the new row. */
  datatype RegisterResponse =
    | RegisterBadRequest(errors: set<RegistrationKey>)
    | RegisterServerError
    | Registered(user: UserData, message: string)

  /** Ids below the next id to hand out; ids, e-mails and user names unique. Registration
      stores normalised addresses, but the administrators' create and update store an address
      as typed, so the directory holds both kinds. */
  predicate DirectoryValid(users: seq<UserData>, nextId: UserId) {
    && (forall i | 0 <= i < |users| :: users[i].id < nextId)
    && (forall i, j | 0 <= i < j < |users| ::
          users[i].id != users[j].id && users[i].email != users[j].email && users[i].username != users[j].username)
  }

  /** Appending a row with the next id and an e-mail and user name not yet taken keeps the
      directory valid. */
  lemma AppendKeepsValid(users: seq<UserData>, nextId: UserId, row: UserData)
    requires DirectoryValid(users, nextId)
    requires row.id == nextId
    requires EmailFree(users, row.email) && UsernameFree(users, row.username)
    ensures DirectoryValid(users + [row], nextId + 1)
  {
    var after := users + [row];
    forall i, j | 0 <= i < j < |after|
      ensures after[i].id != after[j].id && after[i].email != after[j].email && after[i].username != after[j].username
    {
      if j == |users| {
        assert after[i] == users[i] && after[j] == row;
      } else {
        assert after[i] == users[i] && after[j] == users[j];
      }
    }
  }

  /** The login lookup is exact: an account logs in under its stored address and never
      under another spelling, which is refused with 401 unless some other account stores it. */
  lemma {:induction false} LoginSpellingExact(users: seq<UserData>, row: UserData, typed: string, password: string)
    requires row in users && EmailsUnique(users)
    requires row.email != typed && typed != "" && password != ""
    ensures Login(users, Some(typed), Some(password)) != LoggedIn(row)
    ensures (forall i | 0 <= i < |users| :: users[i].email != typed) ==>
      Login(users, Some(typed), Some(password)) == LoginRejected(401, "Invalid credentials")
    ensures row.email != "" && CheckPassword(row.credential, password) && row.isActive ==>
      Login(users, Some(row.email), Some(password)) == LoggedIn(row)
  {
    if row.email != "" {
      FindUnique(users, row);
    }
  }

  /** Registration stores the normalised address, so a registered account never logs in
      under a spelling typed at registration that normalisation changed; that spelling is
      refused with 401 unless some other account stores it as typed. */
  lemma {:induction false} RegisteredLoginSpelling(users: seq<UserData>, row: UserData, typed: string, password: string)
    requires row in users && EmailsUnique(users)
    requires row.email == NormalizeEmail(typed) && row.email != typed
    requires typed != "" && password != ""
    ensures Login(users, Some(typed), Some(password)) != LoggedIn(row)
    ensures (forall i | 0 <= i < |users| :: users[i].email != typed) ==>
      Login(users, Some(typed), Some(password)) == LoginRejected(401, "Invalid credentials")
  {
    LoginSpellingExact(users, row, typed, password);
  }

  /** The stored accounts. */
  class UserDirectory {
    var users: seq<UserData>
    var nextId: UserId

    ghost predicate Valid()
      reads this
    {
      DirectoryValid(users, nextId)
    }

    constructor ()
      ensures Valid() && users == []
    {
      users := [];
      nextId := 1;
    }

    /** `RegisterView.create`: invalid data is answered with 400 and the errors, and nothing
        is stored; valid data is saved as the registered row, unless its normalised e-mail is
        already stored (the uniqueness check compares the address as typed), in which case
        the save fails with 500 and nothing is stored. */
    method Register(input: RegistrationInput, passwordAccepted: bool) returns (resp: RegisterResponse)
      requires Valid()
      modifies this
      ensures Valid()
      ensures var v := ValidateRegistration(input, passwordAccepted, old(users));
        && (v.Invalid? ==> resp == RegisterBadRequest(v.errors) && users == old(users))
        && (v.Valid? ==>
              var row := RegisteredUser(old(nextId), v.data);
              && row.email == NormalizeEmail(v.data.email)
              && (!EmailFree(old(users), row.email) ==> resp == RegisterServerError && users == old(users))
              && (EmailFree(old(users), row.email) ==>
                    resp == Registered(row, "User registered successfully") && users == old(users) + [row]))
    {
      var v := ValidateRegistration(input, passwordAccepted, users);
      if v.Invalid? {
        return RegisterBadRequest(v.errors);
      }
      var u := CreateRegistered(nextId, v.data);
      var row := u.Data();
      RegistrationValidationMeaning(Stripped(input), passwordAccepted, users);
      var saved := Insert(row);
      if !saved {
        return RegisterServerError;
      }
      resp := Registered(row, "User registered successfully");
    }

    /** Saving a new row: the e-mail and user-name columns are unique, so a row that repeats
        a stored value is refused (the database's integrity error) and nothing changes. */
    method Insert(row: UserData) returns (saved: bool)
      requires Valid()
      requires row.id == nextId
      modifies this
      ensures Valid()
      ensures saved <==> EmailFree(old(users), row.email) && UsernameFree(old(users), row.username)
      ensures saved ==> users == old(users) + [row] && nextId == old(nextId) + 1
      ensures !saved ==> users == old(users) && nextId == old(nextId)
    {
      if !EmailFree(users, row.email) || !UsernameFree(users, row.username) {
        return false;
      }
      AppendKeepsValid(users, nextId, row);
      users := users + [row];
      nextId := nextId + 1;
      saved := true;
    }
  }

  // ---------------------------------------------------------------------------
  // Logout

  datatype LogoutResponse = LogoutOk | InvalidToken

  /** The outcome of a logout on the token store (`issued`, `blacklisted`): the answer and
      the new blacklist. */
  function LogoutOutcome(issued: set<string>, blacklisted: set<string>, refresh: Option<string>)
    : (r: (LogoutResponse, set<string>))
    ensures r.1 >= blacklisted
    ensures r.0 == InvalidToken ==> r.1 == blacklisted
    ensures r.1 != blacklisted ==> refresh.Some? && r.1 == blacklisted + {refresh.value}
    ensures refresh.None? || refresh.value == "" ==> r == (LogoutOk, blacklisted)
    ensures refresh.Some? && refresh.value != "" ==>
      (r.0 == LogoutOk <==> refresh.value in issued && refresh.value !in blacklisted)
  {
    if refresh.None? || refresh.value == "" then (LogoutOk, blacklisted)
    else if refresh.value in issued && refresh.value !in blacklisted then (LogoutOk, blacklisted + {refresh.value})
    else (InvalidToken, blacklisted)
  }

  /** Logging out twice with the same token: the first succeeds and blacklists it, the
      second is refused. Without a token, logout always succeeds and changes nothing. */
  lemma {:induction false} LogoutReplayRefused(issued: set<string>, blacklisted: set<string>, t: string)
    requires t != "" && t in issued && t !in blacklisted
    ensures var (first, after) := LogoutOutcome(issued, blacklisted, Some(t));
      && first == LogoutOk && t in after
      && LogoutOutcome(issued, after, Some(t)).0 == InvalidToken
    ensures LogoutOutcome(issued, blacklisted, None) == (LogoutOk, blacklisted)
  {
  }

  /** The refresh tokens issued so far and the blacklisted ones. */
  class TokenStore {
    var issued: set<string>
    var blacklisted: set<string>

    /** `logout_view`: no token gives 200; a token that does not decode gives 400; otherwise
        the token is blacklisted. */
    method Logout(refresh: Option<string>) returns (resp: LogoutResponse)
      modifies this
      ensures issued == old(issued)
      ensures (resp, blacklisted) == LogoutOutcome(old(issued), old(blacklisted), refresh)
      ensures refresh.None? || refresh.value == "" ==> resp == LogoutOk && blacklisted == old(blacklisted)
    {
      if refresh.Some? && refresh.value != "" {
        if refresh.value in issued && refresh.value !in blacklisted {
          blacklisted := blacklisted + {refresh.value};
        } else {
          return InvalidToken;
        }
      }
      resp := LogoutOk;
    }
  }
}
