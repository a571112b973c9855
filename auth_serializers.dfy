/** The serializers of the authentication app: the password-reset request (its
    e-mail check and which fields a requester may write), the administrator's
    approval form, the reset confirmation, and the read-only audit-log view.
    Character fields are stripped of surrounding whitespace before they are
    checked, as the framework's character fields do by default. */
module AuthSerializers {
  import opened Util
  import opened Accounts

  datatype Checked<T> = Rejected(errors: map<string, string>) | Accepted(value: T)

  // ---------------------------------------------------------------------------
  // Reset request

  /** `validate_user_email`: the address must belong to an account. */
  function ValidateUserEmail(value: string, users: seq<UserData>): (r: Checked<string>)
    ensures r.Accepted? <==> exists i :: 0 <= i < |users| && users[i].email == value
    ensures r.Accepted? ==> r.value == value
    ensures r.Rejected? ==> r.errors == map["user_email" := "No user found with this email address."]
  {
    if exists i :: 0 <= i < |users| && users[i].email == value then Accepted(value)
    else Rejected(map["user_email" := "No user found with this email address."])
  }

  /** The answer differs exactly according to whether the address has an account, so the
      endpoint tells an anonymous caller which addresses are registered. */
  lemma {:induction false} RequestRevealsAccounts(value: string, users: seq<UserData>, u: UserData)
    ensures ValidateUserEmail(value, users + [u.(email := value)]).Accepted?
    ensures (forall i | 0 <= i < |users| :: users[i].email != value) ==> ValidateUserEmail(value, users).Rejected?
  {
    var extended := users + [u.(email := value)];
    assert extended[|users|].email == value;
  }

  /** The fields a model serializer accepts from a request: the declared ones that are not read-only. */
  function WritableFields(declared: set<string>, readOnly: set<string>): (w: set<string>)
    ensures w <= declared
    ensures w !! readOnly
    ensures forall f | f in declared && f !in readOnly :: f in w
  {
    declared - readOnly
  }

  const ResetRequestFields: set<string> :=
    {"id", "user", "user_email", "status", "reason", "admin_notes", "approved_by", "created_at", "approved_at", "expires_at"}
  const ResetRequestReadOnly: set<string> :=
    {"id", "user", "status", "admin_notes", "approved_by", "created_at", "approved_at", "expires_at"}

  /** A requester writes only the e-mail and the reason: never the status, the notes, the
      approver or any of the times. */
  lemma RequesterWritesEmailAndReason()
    ensures WritableFields(ResetRequestFields, ResetRequestReadOnly) == {"user_email", "reason"}
  {
    var w := WritableFields(ResetRequestFields, ResetRequestReadOnly);
    assert "user_email" in w && "reason" in w;
    assert forall f | f in w :: f == "user_email" || f == "reason";
  }

  // ---------------------------------------------------------------------------
  // Approval

  datatype Approval = Approval(approve: bool, adminNotes: Option<string>)

  /** The administrator's answer: `action` is required and must be `approve` or `reject`;
      the notes are optional and may be blank. */
  function ValidateApproval(action: Option<string>, adminNotes: Option<string>): (r: Checked<Approval>)
    ensures r.Accepted? <==> action == Some("approve") || action == Some("reject")
    ensures r.Accepted? ==> r.value.approve == (action == Some("approve"))
    ensures r.Accepted? && adminNotes.None? ==> r.value.adminNotes.None?
    ensures r.Rejected? ==> r.errors.Keys == {"action"}
  {
    if action.None? then Rejected(map["action" := "This field is required."])
    else if action.value != "approve" && action.value != "reject" then
      Rejected(map["action" := "\"" + action.value + "\" is not a valid choice."])
    else Accepted(Approval(action.value == "approve", if adminNotes.Some? then Some(Clean(adminNotes.value)) else None))
  }

  /** Blank notes are accepted alongside a valid action. */
  lemma BlankNotesAccepted(action: string)
    requires action == "approve" || action == "reject"
    ensures ValidateApproval(Some(action), Some("")).Accepted?
    ensures ValidateApproval(Some(action), None).Accepted?
  {
  }

  // ---------------------------------------------------------------------------
  // Confirmation

  const NewPasswordMinLength: nat := 8

  datatype Confirmation = Confirmation(token: string, newPassword: string)

  /** The error of one required character field, if any. */
  function RequiredError(v: Option<string>): Option<string> {
    if v.None? then Some("This field is required.")
    else if Clean(v.value) == "" then Some("This field may not be blank.")
    else None
  }

  function NewPasswordError(v: Option<string>): Option<string> {
    if RequiredError(v).Some? then RequiredError(v)
    else if |Clean(v.value)| < NewPasswordMinLength then Some("Ensure this field has at least 8 characters.")
    else None
  }

  function ConfirmFieldErrors(token: Option<string>, newPassword: Option<string>, confirm: Option<string>)
    : (errors: map<string, string>)
    ensures errors.Keys <= {"token", "new_password", "confirm_password"}
    ensures "token" !in errors <==> RequiredError(token).None?
    ensures "new_password" !in errors <==> NewPasswordError(newPassword).None?
    ensures "confirm_password" !in errors <==> RequiredError(confirm).None?
  {
    var e1 := if RequiredError(token).Some? then map["token" := RequiredError(token).value] else map[];
    var e2 := if NewPasswordError(newPassword).Some? then e1["new_password" := NewPasswordError(newPassword).value] else e1;
    if RequiredError(confirm).Some? then e2["confirm_password" := RequiredError(confirm).value] else e2
  }

  /** Field checks first; then `validate`: the two passwords must match, and a mismatch is
      reported under `confirm_password`. */
  function ValidateConfirm(token: Option<string>, newPassword: Option<string>, confirm: Option<string>)
    : Checked<Confirmation>
  {
    var errors := ConfirmFieldErrors(token, newPassword, confirm);
    if errors != map[] then Rejected(errors)
    else if Clean(newPassword.value) != Clean(confirm.value) then
      Rejected(map["confirm_password" := "Passwords do not match."])
    else Accepted(Confirmation(Clean(token.value), Clean(newPassword.value)))
  }

  /** The confirmation passes exactly with a token, a new password of at least eight
      characters and a matching confirmation; a mismatch alone is keyed `confirm_password`. */
  lemma {:induction false} ConfirmMeaning(token: Option<string>, newPassword: Option<string>, confirm: Option<string>)
    ensures var r := ValidateConfirm(token, newPassword, confirm);
      && (r.Accepted? <==>
           && token.Some? && Clean(token.value) != ""
           && newPassword.Some? && |Clean(newPassword.value)| >= NewPasswordMinLength
           && confirm.Some? && Clean(confirm.value) != ""
           && Clean(newPassword.value) == Clean(confirm.value))
      && (r.Accepted? ==> |r.value.newPassword| >= NewPasswordMinLength)
      && (ConfirmFieldErrors(token, newPassword, confirm) == map[]
          && Clean(newPassword.value) != Clean(confirm.value)
          ==> r.Rejected? && r.errors.Keys == {"confirm_password"})
  {
    var errors := ConfirmFieldErrors(token, newPassword, confirm);
    ConfirmFieldsPass(token, newPassword, confirm);
    var r := ValidateConfirm(token, newPassword, confirm);
    if errors != map[] {
      assert r == Rejected(errors);
    } else {
      var np, cf := Clean(newPassword.value), Clean(confirm.value);
      if np != cf {
        var mismatch := map["confirm_password" := "Passwords do not match."];
        assert r == Rejected(mismatch);
        assert mismatch.Keys == {"confirm_password"};
      } else {
        assert r == Accepted(Confirmation(Clean(token.value), np));
      }
    }
  }

  /** No field error exactly when the token and the confirmation are given and not blank
      and the new password has at least eight characters after stripping. */
  lemma ConfirmFieldsPass(token: Option<string>, newPassword: Option<string>, confirm: Option<string>)
    ensures ConfirmFieldErrors(token, newPassword, confirm) == map[] <==>
      && token.Some? && Clean(token.value) != ""
      && newPassword.Some? && |Clean(newPassword.value)| >= NewPasswordMinLength
      && confirm.Some? && Clean(confirm.value) != ""
  {
    var errors := ConfirmFieldErrors(token, newPassword, confirm);
    if RequiredError(token).None? && NewPasswordError(newPassword).None? && RequiredError(confirm).None? {
      assert errors.Keys == {};
    }
  }

  // ---------------------------------------------------------------------------
  // Audit log

  const AuditLogFields: set<string> :=
    {"id", "admin_user", "action", "action_display", "target_user", "description", "metadata",
     "ip_address", "user_agent", "created_at"}

  /** Every field of an audit entry is read-only through its serializer. */
  lemma AuditLogReadOnly()
    ensures WritableFields(AuditLogFields, AuditLogFields) == {}
  {
  }
}
