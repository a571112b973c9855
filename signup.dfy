/** The sign-up page of the web front end: the password-strength meter, the checks
    that let the three-step form advance, and the order in which the submit handler
    refuses a form before posting it to the registration endpoint.

    The form posts its fields unchanged, so the payload is related here to the
    registration serializer's validation. */
module Signup {
  import opened Util
  import opened Roles
  import opened Accounts
  import opened UserSerializers

  // ---------------------------------------------------------------------------
  // Password strength

  datatype Strength = Weak | Medium | Strong

  function StrengthName(s: Strength): string {
    match s
    case Weak => "weak"
    case Medium => "medium"
    case Strong => "strong"
  }

  /** The characters a regular-expression `.` does not match. */
  predicate IsLineTerminator(c: char) {
    c == '\n' || c == '\r' || c == '\U{2028}' || c == '\U{2029}'
  }

  /** The lookahead `(?=.*X)` tried at position `p`: a character of class `cls` occurs at
      or after `p` with no line terminator before it. */
  predicate AheadOnLine(s: string, p: nat, cls: char -> bool) {
    exists q | p <= q < |s| :: cls(s[q]) && forall k | p <= k < q :: !IsLineTerminator(s[k])
  }

  /** `/(?=.*[a-z])(?=.*[A-Z])(?=.*\d)/.test(s)`: from some position the three lookaheads
      all succeed. */
  predicate MixedClasses(s: string) {
    exists p | 0 <= p <= |s| ::
      AheadOnLine(s, p, IsAsciiLower) && AheadOnLine(s, p, IsAsciiUpper) && AheadOnLine(s, p, IsAsciiDigit)
  }

  /** `calculatePasswordStrength`: short passwords are weak; a long one with the three
      character classes is strong; everything else is medium. */
  function CalculatePasswordStrength(password: string): (r: Strength)
    ensures r == Weak <==> |password| < 6
    ensures r == Strong ==> |password| >= 10
    ensures |password| >= 10 ==> (r == Strong <==> MixedClasses(password))
  {
    if |password| < 6 then Weak
    else if |password| < 10 || !MixedClasses(password) then Medium
    else Strong
  }

  predicate HasClass(s: string, cls: char -> bool) {
    exists i | 0 <= i < |s| :: cls(s[i])
  }

  /** A strong password contains a lower-case letter, an upper-case letter and a digit. */
  lemma StrongHasAllClasses(password: string)
    requires CalculatePasswordStrength(password) == Strong
    ensures |password| >= 10
    ensures HasClass(password, IsAsciiLower) && HasClass(password, IsAsciiUpper) && HasClass(password, IsAsciiDigit)
  {
    var p :| 0 <= p <= |password| && AheadOnLine(password, p, IsAsciiLower)
      && AheadOnLine(password, p, IsAsciiUpper) && AheadOnLine(password, p, IsAsciiDigit);
    var a :| p <= a < |password| && IsAsciiLower(password[a]);
    var b :| p <= b < |password| && IsAsciiUpper(password[b]);
    var c :| p <= c < |password| && IsAsciiDigit(password[c]);
  }

  /** On a single line the pattern means what it looks like: a password of at least ten
      characters is strong exactly when it contains the three classes somewhere. */
  lemma SingleLineStrength(password: string)
    requires forall k | 0 <= k < |password| :: !IsLineTerminator(password[k])
    ensures CalculatePasswordStrength(password) == Strong <==>
      |password| >= 10 && HasClass(password, IsAsciiLower) && HasClass(password, IsAsciiUpper)
      && HasClass(password, IsAsciiDigit)
  {
    if |password| >= 10 && HasClass(password, IsAsciiLower) && HasClass(password, IsAsciiUpper)
       && HasClass(password, IsAsciiDigit) {
      var a :| 0 <= a < |password| && IsAsciiLower(password[a]);
      var b :| 0 <= b < |password| && IsAsciiUpper(password[b]);
      var c :| 0 <= c < |password| && IsAsciiDigit(password[c]);
      assert AheadOnLine(password, 0, IsAsciiLower);
      assert AheadOnLine(password, 0, IsAsciiUpper);
      assert AheadOnLine(password, 0, IsAsciiDigit);
    } else if CalculatePasswordStrength(password) == Strong {
      StrongHasAllClasses(password);
    }
  }

  /** Across a line break the classes do not combine: this password holds all three
      classes and is long enough, yet it is only medium. */
  lemma LineBreakSeparatesClasses()
    ensures var pw := "abcdefghij\nA1";
      && HasClass(pw, IsAsciiLower) && HasClass(pw, IsAsciiUpper) && HasClass(pw, IsAsciiDigit)
      && |pw| >= 10
      && CalculatePasswordStrength(pw) == Medium
  {
    var pw := "abcdefghij\nA1";
    assert IsAsciiLower(pw[0]) && IsAsciiUpper(pw[11]) && IsAsciiDigit(pw[12]);
    forall p | 0 <= p <= |pw|
      ensures !(AheadOnLine(pw, p, IsAsciiLower) && AheadOnLine(pw, p, IsAsciiUpper) && AheadOnLine(pw, p, IsAsciiDigit))
    {
      if p <= 10 {
        NoUpperBeforeBreak(pw, p);
      } else {
        assert forall q | p <= q < |pw| :: !IsAsciiLower(pw[q]);
      }
    }
  }

  lemma NoUpperBeforeBreak(pw: string, p: nat)
    requires pw == "abcdefghij\nA1" && p <= 10
    ensures !AheadOnLine(pw, p, IsAsciiUpper)
  {
    forall q | p <= q < |pw| && IsAsciiUpper(pw[q])
      ensures exists k | p <= k < q :: IsLineTerminator(pw[k])
    {
      assert q == 11;
      assert IsLineTerminator(pw[10]);
    }
  }

  // ---------------------------------------------------------------------------
  // The form

  datatype SignupForm = SignupForm(
    email: string,
    username: string,
    password: string,
    passwordConfirm: string,
    firstName: string,
    lastName: string,
    role: string)

  /** The strength shown under the password field: nothing while the field is empty. */
  function DisplayedStrength(password: string): (r: string)
    ensures r == "" <==> password == ""
    ensures r == "weak" <==> password != "" && |password| < 6
  {
    if password != "" then StrengthName(CalculatePasswordStrength(password)) else ""
  }

  /** `validateStep`: step 1 needs the e-mail, user name and both names; step 2 a role;
      step 3 two equal, non-empty passwords; no other step ever passes. */
  function ValidateStep(step: int, f: SignupForm): (ok: bool)
    ensures step != 1 && step != 2 && step != 3 ==> !ok
    ensures step == 1 ==> (ok <==> f.email != "" && f.username != "" && f.firstName != "" && f.lastName != "")
    ensures step == 2 ==> (ok <==> f.role != "")
    ensures step == 3 ==> (ok <==> f.password != "" && f.passwordConfirm != "" && f.password == f.passwordConfirm)
  {
    if step == 1 then f.email != "" && f.username != "" && f.firstName != "" && f.lastName != ""
    else if step == 2 then f.role != ""
    else if step == 3 then f.password != "" && f.passwordConfirm != "" && f.password == f.passwordConfirm
    else false
  }

  /** The payload the page posts: every form field as sent, and no middle name. */
  function Payload(f: SignupForm): RegistrationInput {
    RegistrationInput(Some(f.email), Some(f.username), Some(f.password), Some(f.passwordConfirm),
                      Some(f.firstName), None, Some(f.lastName), Some(f.role))
  }

  datatype SubmitOutcome = Refused(error: string) | Posted(payload: RegistrationInput)

  const PasswordsDiffer: string := "Passwords do not match"
  const PasswordTooWeak: string := "Please choose a stronger password"

  /** `handleSubmit` up to the request, once the browser has submitted the form: a
      mismatch is refused first, then a weak password; otherwise the form is posted. */
  function HandleSubmit(f: SignupForm): (r: SubmitOutcome)
    ensures f.password != f.passwordConfirm ==> r == Refused(PasswordsDiffer)
    ensures r == Refused(PasswordTooWeak) <==> f.password == f.passwordConfirm && f.password != "" && |f.password| < 6
    ensures r.Posted? <==> f.password == f.passwordConfirm && (f.password == "" || |f.password| >= 6)
    ensures r.Posted? ==> r.payload == Payload(f)
  {
    if f.password != f.passwordConfirm then Refused(PasswordsDiffer)
    else if DisplayedStrength(f.password) == "weak" then Refused(PasswordTooWeak)
    else Posted(Payload(f))
  }

  /** A form that passed step 3 is never refused for a mismatch. */
  lemma StepThreeRulesOutMismatch(f: SignupForm)
    requires ValidateStep(3, f)
    ensures HandleSubmit(f) != Refused(PasswordsDiffer)
  {
  }

  /** The handler's weakness check reads the displayed strength, which is empty for an
      empty password, so the handler's own checks let an empty password through to the
      request, and the registration endpoint would refuse it under `password` and
      `password_confirm`. On the page the `required` attribute of both password inputs
      keeps the browser from submitting such a form at all. */
  lemma {:induction false} EmptyPasswordLeftToServer(f: SignupForm, passwordAccepted: bool, existing: seq<UserData>)
    requires f.password == "" && f.passwordConfirm == ""
    ensures HandleSubmit(f).Posted?
    ensures var v := ValidateRegistration(Payload(f), passwordAccepted, existing);
      v.Invalid? && PasswordKey in v.errors && PasswordConfirmKey in v.errors
  {
    var s := Stripped(Payload(f));
    assert Clean("") == "";
    assert s.password == Some("") && s.passwordConfirm == Some("");
    var errors := FieldErrors(s, passwordAccepted, existing);
    assert PasswordKey in errors && PasswordConfirmKey in errors;
    assert ValidateRegistration(Payload(f), passwordAccepted, existing) == Invalid(errors);
  }

  // ---------------------------------------------------------------------------
  // Role choices

  /** The role options the page offers, and its initial role. */
  const SignupRoleValuesAsWritten: seq<string> := ["CITIZEN", "WASTE_COLLECTOR"]
  const InitialRoleAsWritten: string := "CITIZEN"

  /** Every role the page offers is outside the registration serializer's choices, so
      every form posted from the page is refused with an error under `role`. */
  lemma {:induction false} SignupRolesRefused(f: SignupForm, passwordAccepted: bool, existing: seq<UserData>)
    requires f.role in SignupRoleValuesAsWritten
    ensures var v := ValidateRegistration(Payload(f), passwordAccepted, existing);
      v.Invalid? && RoleKey in v.errors
  {
    var s := Stripped(Payload(f));
    assert s.role == Some(f.role);
    assert f.role !in RegistrationRoleChoices;
    assert RoleKey in FieldErrors(s, passwordAccepted, existing);
  }

  /** The options the page evidently means to offer: the two roles open to
      self-registration, with MEMBER first. */
  const SignupRoleValues: seq<string> := [Choice(Member), Choice(Manager)]
  const InitialRole: string := SignupRoleValues[0]

  /** The page's initial form state as written: empty fields, which neither the first nor
      the third step accepts, and the role CITIZEN, which the server refuses. */
  function InitialForm(): (f: SignupForm)
    ensures f.role in SignupRoleValuesAsWritten && !ValidateStep(1, f) && !ValidateStep(3, f)
  {
    SignupForm("", "", "", "", "", "", InitialRoleAsWritten)
  }

  /** The initial form state with the role the page evidently means: MEMBER, a role the
      registration serializer accepts. */
  function InitialFormCorrected(): (f: SignupForm)
    ensures f.role in SignupRoleValues && f.role in RegistrationRoleChoices && ParseChoice(f.role) == Some(Member)
    ensures !ValidateStep(1, f) && !ValidateStep(3, f)
  {
    SignupForm("", "", "", "", "", "", InitialRole)
  }

  /** Every offered role passes the serializer's choice check, and an accepted form
      registers a user holding exactly the chosen role. */
  lemma {:induction false} SignupRolesAccepted(f: SignupForm, passwordAccepted: bool, existing: seq<UserData>, id: UserId)
    requires f.role in SignupRoleValues
    ensures RoleKey !in FieldErrors(Stripped(Payload(f)), passwordAccepted, existing)
    ensures var v := ValidateRegistration(Payload(f), passwordAccepted, existing);
      v.Valid? ==> v.data.role == f.role && RegisteredUser(id, v.data).role == ParseChoice(f.role)
  {
    var s := Stripped(Payload(f));
    assert s.role == Some(f.role);
    assert f.role in RegistrationRoleChoices;
    var v := ValidateRegistration(Payload(f), passwordAccepted, existing);
    if v.Valid? {
      RegistrationValidationMeaning(s, passwordAccepted, existing);
      assert v.data.role == f.role;
    }
  }
}
