# Task tracker: roles, permissions and account entry points

This project models the trust and access logic of a team task tracker, and it proves properties of that logic. The tracker has a Django REST backend and a React front end.

- **Roles.** Every user has at most one of three roles: ADMIN, MANAGER or MEMBER.
  - The roles determine the capability flags: manage users, manage tasks, assign tasks.
  - The flags determine the request-time permission classes.
  - Those classes determine which tasks and users each person may see, edit, delete or re-assign.
- **Accounts.**
  - Accounts are registered, logged in and logged out.
  - Password-reset requests carry a status, a write-once expiry and a token.
  - Admin activity is recorded as one of fifteen audit actions.
  - A data migration maps legacy role titles onto the three roles.
- **Front end.** Two parts of the web client are modelled:
  - the task utilities: team metrics, top performer, list filter, task-form check, and the per-action check that shows or hides controls;
  - the sign-up page: the password-strength meter, the step checks and the submit order.

How the source is represented:

- **Roles and statuses.** Roles, task statuses, reset statuses and audit actions are closed datatypes. The strings the source stores are printers, and each printer has a parser proved to invert it.
- **Users without a role.** A user without a role is `None`.
- **Time.** Time is a whole number of seconds, passed in as a parameter.
- **Oracles.** These are parameters, not computations:
  - password hashing is an injective tag;
  - Django's password validators are a boolean;
  - the JSON web tokens are a set of issued and a set of blacklisted refresh tokens.
- **Code that changes state** is imperative Dafny. Each such method is proved against a function of the old state:
  - `save` of a reset request;
  - the serializer's `update` loop;
  - `change_role`;
  - task creation and `assign`;
  - registration and logout;
  - the migration's loop over users;
  - the metrics loop of the front end.

The password-reset request serializer rejects an unknown e-mail with an error, so the endpoint reveals which addresses are registered (`AuthSerializers.RequestRevealsAccounts`).

The serializers list the fields `middle_name`, `profile_image` and `phone_number`, but the `User` model in `backend/users/models.py:30-44` declares none of them (it has `phone`). The model gives the user record these fields as the serializers describe them.

Registration stores an e-mail in the normal form of `create_user`, but the administrators' create and update (`backend/users/serializers.py:36-51`) store it as typed. The account directory therefore holds both kinds, and login compares addresses exactly.

The repository spells roles two ways:

- the upper-case `User.Role` choices, used by the flag mixin, the serializers, the views, the migration and the front end;
- the lower-case names of the `Role` table that `users/models.py` refers to through a foreign key.

Both spellings are modelled, and the two sets of flags are proved to agree (`Roles.RowFlagsAgree`).

Modules, one file each:

| module | file | models |
|---|---|---|
| `Util` | `util.dfy` | shared helpers |
| `Roles` | `roles.dfy` | roles, flags, capabilities |
| `Accounts` | `accounts.dfy` | the user record |
| `Permissions` | `permissions.dfy` | the permission classes |
| `Tasks` | `tasks.dfy` | the task model |
| `TaskViews` | `task_views.dfy` | the task endpoints |
| `UserViews` | `user_views.dfy` | the user endpoints |
| `UserSerializers` | `user_serializers.dfy` | the user serializers |
| `AuthModels` | `auth_models.dfy` | reset requests and the audit log |
| `AuthSerializers` | `auth_serializers.dfy` | the password-reset serializers |
| `AuthViews` | `auth_views.dfy` | registration, login, logout |
| `RoleMigration` | `migration.dfy` | the legacy-role migration |
| `TeamMetrics` | `team_metrics.dfy` | the front-end task utilities |
| `Signup` | `signup.dfy` | the sign-up page |

## Model

| member | source | states |
|---|---|---|
| Roles.ParseChoice | backend/users/views.py:80-81 | a role string is accepted exactly when it is ADMIN, MANAGER or MEMBER, and the accepted role prints back as that string |
| Roles.ChoiceRoundTrip | backend/users/views.py:80-86 | every role's stored value is a valid choice and reads back as the same role |
| Roles.ParseName | backend/users/models.py:7-15 | a `Role` row name stands for a role exactly when it is `admin`, `manager` or `member`, and names that role |
| Roles.NameRoundTrip | backend/users/models.py:7-17 | every role's row name is one of the three choices and reads back as the same role |
| Roles.IsInRoleMeaning | backend/users/mixins.py:10-12 | `_is_in_role` holds iff the user's role is an element of the list; it is false for an empty list and for a user without a role |
| Roles.FlagsExclusive | backend/users/mixins.py:14-24 | at most one of `is_admin`, `is_manager`, `is_member` holds; a user with a role has exactly one |
| Roles.NoRoleNoCapability | backend/users/mixins.py:14-33 | a MEMBER or role-less user has no capability; a role-less user has no flag |
| Roles.CapabilityImplications | backend/users/mixins.py:26-33 | `can_manage_users` iff ADMIN; `can_manage_tasks` equals `can_assign_tasks`, true exactly for ADMIN and MANAGER; managing users implies the other two |
| Roles.FlagsMatchTable | backend/users/mixins.py:26-33 | the three capability methods agree with an independent role-to-capability table, for every role and for no role |
| Roles.RoleOfRow | backend/users/models.py:33-39 | a null foreign key stands for no role; a row stands for a role only if its name is that role's name |
| Roles.RowFlagsAgree | backend/users/models.py:58-83 | the flags and capabilities computed from a `Role` row equal the mixin's flags and capabilities for the role the row stands for |
| Roles.RowFlagsExclusive | backend/users/models.py:58-71 | with a null role all three row flags are false; no two flags hold together; without ADMIN or MANAGER there is no capability |
| Roles.AtMostThreeRoleRows | backend/users/models.py:11-17 | a `Role` table whose names come from the choices and are unique has at most three rows |
| Permissions.NoUserNoPermission | backend/users/permissions.py:3-66 | every `has_permission` check is false for a missing or anonymous request user |
| Permissions.ManagerChecks | backend/users/permissions.py:3-66 | `IsManager` and `IsAdminOrManager` coincide; `IsAdmin` implies `IsManager`; `CanManageUsers` implies `CanManageTasks` and `CanAssignTasks`; the latter two coincide |
| Permissions.EditPermission | backend/users/permissions.py:69-82 | `CanEditTask` holds iff the user is ADMIN or MANAGER or is a MEMBER assigned to the task; a role-less user is denied |
| Permissions.DeletePermission | backend/users/permissions.py:85-90 | `CanDeleteTask` holds iff the user is ADMIN or MANAGER, whatever the task, and implies `CanEditTask` |
| Permissions.ClassesAgreeWithTaskMethods | backend/tasks/models.py:58-74 | the two object permission classes agree with `can_be_edited_by` and `can_be_deleted_by` on every user and task |
| Tasks.ParseStatus | backend/tasks/models.py:8-16 | a status string is accepted exactly when it is `todo`, `in_progress` or `done` |
| Tasks.StatusRoundTrip | backend/tasks/models.py:8-16 | every status's stored value reads back as that status |
| Tasks.EditRule | backend/tasks/models.py:58-66 | `can_be_edited_by` iff the user can manage tasks or is a MEMBER assigned to the task; never for a role-less user |
| Tasks.DeleteRule | backend/tasks/models.py:68-74 | `can_be_deleted_by` iff ADMIN or MANAGER, the same for every task, never for a MEMBER, and it implies `can_be_edited_by` |
| Tasks.TaskString | backend/tasks/models.py:55-56 | `str(task)` starts with the title and has the length of title, separator and status label |
| Tasks.TaskStringExample | backend/tasks/models.py:55-56 | a `todo` task titled "Test Task" renders as "Test Task - Todo" |
| Tasks.TaskStringDeterminesStatus | backend/tasks/models.py:55-56 | two tasks with the same title and the same string have the same status |
| TaskViews.ViewLevelByAction | backend/tasks/views.py:26-36 | `create` needs authentication and the manage-tasks capability, every other action authentication only; update needs `CanEditTask` and destroy `CanDeleteTask` |
| TaskViews.AssignAsWrittenAdmitsMembers | backend/tasks/views.py:26-36 | the permission list actually used for `assign` admits a MEMBER, who lacks the assign capability (see Findings) |
| TaskViews.AssignAsWrittenMemberReassigns | backend/tasks/views.py:26-65 | as written, a MEMBER reaches `assign` on every task assigned to them and so may hand it to anyone, where the declared permissions answer 403 |
| TaskViews.AssignIntendedNeedsCapability | backend/tasks/views.py:62 | with the permissions declared on `assign`, the view admits exactly authenticated users who can assign tasks; other actions are unchanged |
| TaskViews.VisibleTasks | backend/tasks/views.py:38-56 | admins and managers see all tasks, members exactly their assigned ones, role-less users none; the result keeps the original order |
| TaskViews.FindById | backend/tasks/views.py:65 | the lookup returns a task of the list with that id, or fails only if the list has none |
| TaskViews.DestroyAccess | backend/tasks/views.py:32-33 | deleting is granted iff the requester is an authenticated ADMIN or MANAGER and a task with that id exists |
| TaskViews.UpdateAccess | backend/tasks/views.py:30-56 | an update is granted exactly on an existing task the requester can edit: ADMIN and MANAGER on every existing task, a MEMBER on exactly the tasks assigned to them, a role-less user never |
| TaskViews.CountStatus | backend/tasks/views.py:108-110 | a status count never exceeds the number of tasks |
| TaskViews.StatusCountsAddUp | backend/tasks/views.py:106-111 | the three status counts add up to the total |
| TaskViews.StatisticsProperties | backend/tasks/views.py:100-121 | the counts add up to `total`, which is the number of visible tasks; the `my_*` figures appear iff the user is a MEMBER and then equal the overall ones |
| TaskViews.TaskTable.PerformCreate | backend/tasks/views.py:58-60 | the new task is appended with `created_by` set to the requester, the next id and the default status |
| TaskViews.TaskTable.Assign | backend/tasks/views.py:62-87 | for the permission list in force (as written, authentication only; as declared, also the assign capability), assignment succeeds iff the request passes it on an existing visible task and names a truthy id of an existing user; a missing id gives 400, an unknown user 404 "User not found"; on failure nothing changes; on success only that task's assignee changes |
| UserViews.UserPermissionsMeaning | backend/users/views.py:18-24 | list, retrieve, profile and update_profile need authentication only; every other action also needs ADMIN |
| UserViews.GetQueryset | backend/users/views.py:26-44 | a user is listed iff they are role-visible, match the role parameter and match the search; the list keeps the stored order |
| UserViews.ListedFacts | backend/users/views.py:35-43 | the role and search filters only narrow the role-visible set, and the three passes equal one filter by their conjunction |
| UserViews.RoleVisibility | backend/users/views.py:29-33 | admins see everyone; managers exactly MANAGER and MEMBER users; anyone else only themselves |
| UserViews.ChangeRole | backend/users/views.py:70-93 | a missing or empty role gives "role is required", a value outside the choices "Invalid role value", both changing nothing; otherwise only the role changes and the message names its label |
| UserSerializers.UpdatedMeaning | backend/users/serializers.py:44-47 | after the `setattr` loop every listed field has its validated value and every other field is unchanged |
| UserSerializers.UpdateResult | backend/users/serializers.py:44-51 | `update` keeps id and staff flag, changes the credential only for a non-empty password, and the new password then checks |
| UserSerializers.UpdateIdempotent | backend/users/serializers.py:44-51 | applying the same update twice equals applying it once; an empty update changes nothing |
| UserSerializers.SetAttr | backend/users/serializers.py:46-47 | `setattr` changes exactly the named field |
| UserSerializers.Update | backend/users/serializers.py:44-51 | the instance ends equal to the update of its old state by the validated data |
| UserSerializers.Create | backend/users/serializers.py:36-42 | a created user is the defaults updated by the data, and has a password iff a non-empty one is given |
| UserSerializers.RegistrationValidationMeaning | backend/users/serializers.py:54-85 | registration validates iff every field is given and not blank, the e-mail fits 254 characters and is not stored, the user name fits 150 characters of the user-name validator's class and is not stored, the password is accepted, the role is MEMBER or MANAGER or absent, and the passwords match; a mismatch alone is reported under `password`; a missing role defaults to MEMBER |
| UserSerializers.BlankAfterStripping | backend/users/serializers.py:57-60 | a value counts as given iff it has a non-whitespace character |
| UserSerializers.ClampRole | backend/users/serializers.py:89-91 | the clamped role is never ADMIN and is MANAGER exactly for the MANAGER value |
| UserSerializers.NormalizeEmail | backend/users/serializers.py:96-98 | the address `create_user` stores: kept as given without an `@`; otherwise stripped, unchanged up to its last `@`, and lower-cased after it |
| UserSerializers.NormalizeEmailIdempotent | backend/users/serializers.py:96-98 | normalising a normalised address changes nothing |
| UserSerializers.RegisteredUser | backend/users/serializers.py:87-109 | a registered user holds the clamped chosen role, so is MEMBER or MANAGER, is staff iff MEMBER, is active, holds the normalised e-mail and the user name as given, and their password checks; `password_confirm` is not stored |
| UserSerializers.CreateRegistered | backend/users/serializers.py:87-109 | the created object holds exactly the registered user |
| UserSerializers.RegistrationRoles | backend/users/serializers.py:61-109 | a validated registration never produces an ADMIN; no role or MEMBER gives a staff MEMBER; MANAGER gives a non-staff MANAGER |
| UserSerializers.ProfileUpdate | backend/users/serializers.py:112-134 | a profile update never changes id, e-mail, role, password or staff flag |
| UserSerializers.ProfileUpdateIsRestrictedUpdate | backend/users/serializers.py:134 | a profile update is the general update restricted to the writable fields |
| AuthModels.ParseResetStatus | backend/auth_app/models.py:11-16 | a reset status string is accepted exactly when it is one of the five values |
| AuthModels.ResetStatusRoundTrip | backend/auth_app/models.py:11-16 | every status is one of the five values and reads back as itself |
| AuthModels.ExpiryWrittenOnce | backend/auth_app/models.py:53-57 | a second save never changes the expiry the first save set |
| AuthModels.ExpiryIsStrict | backend/auth_app/models.py:59-61 | a request is not expired at its expiry instant, only strictly after it |
| AuthModels.CanResetMeaning | backend/auth_app/models.py:63-68 | a reset is allowed iff the status is APPROVED and the expiry has not passed; any other status never allows it |
| AuthModels.ExpiryRunsFromCreation | backend/auth_app/models.py:53-68 | the 24 hours run from the first save, not from approval: a request approved after that window can never be used |
| AuthModels.ResetRequestString | backend/auth_app/models.py:70-71 | the rendering starts with "Password Reset - " and has the length of prefix, e-mail, parenthesised status |
| AuthModels.ResetRequestStringDeterminesStatus | backend/auth_app/models.py:70-71 | for one e-mail, the rendering determines the status |
| AuthModels.PasswordResetRequest.constructor | backend/auth_app/models.py:18-42 | a new request is PENDING with no approver, notes, timestamps or expiry |
| AuthModels.PasswordResetRequest.Save | backend/auth_app/models.py:53-57 | `save` sets the expiry only when it is unset, stamps creation once, and changes nothing else |
| AuthModels.ResetRequestStore.Insert | backend/auth_app/models.py:24 | a request is stored iff its token is not yet taken; otherwise the store is unchanged |
| AuthModels.ResetRequestStore.TokenIdentifiesRequest | backend/auth_app/models.py:24 | two stored requests with the same token are the same request |
| AuthModels.ParseAction | backend/auth_app/models.py:77-92 | an accepted action string is the stored value of the action it yields |
| AuthModels.ActionRoundTrip | backend/auth_app/models.py:77-92 | every action's stored value reads back as that action |
| AuthModels.ActionValueInjective | backend/auth_app/models.py:77-92 | distinct actions have distinct stored values |
| AuthModels.FifteenActions | backend/auth_app/models.py:77-92 | there are exactly fifteen distinct actions and every action is among them |
| AuthModels.AuditEntryString | backend/auth_app/models.py:126-128 | an entry renders its actor as "System" when there is no admin user, else as the admin's e-mail, and ends with " at " and the creation time |
| AuthModels.ActionLabelInjective | backend/auth_app/models.py:77-92 | distinct actions have distinct display labels |
| AuthModels.AuditEntryStringDeterminesAction | backend/auth_app/models.py:126-128 | for the same admin and time, two entries that render alike record the same action |
| AuthSerializers.RequestRevealsAccounts | backend/auth_app/serializers.py:24-31 | the answer differs for an existing and an unknown address, so a caller learns whether an account exists |
| AuthSerializers.RequesterWritesEmailAndReason | backend/auth_app/serializers.py:12-22 | a requester can write only `user_email` and `reason` |
| AuthSerializers.ValidateApproval | backend/auth_app/serializers.py:34-37 | approval data is accepted iff the action is exactly `approve` or `reject`; notes are optional; errors are reported under `action` |
| AuthSerializers.BlankNotesAccepted | backend/auth_app/serializers.py:37 | blank or missing admin notes are accepted |
| AuthSerializers.ConfirmMeaning | backend/auth_app/serializers.py:40-52 | confirmation passes iff all fields pass and the two passwords are equal; the password then has at least 8 characters; a mismatch alone is reported under `confirm_password` |
| AuthSerializers.ConfirmFieldsPass | backend/auth_app/serializers.py:40-44 | no field error exactly when the token and the confirmation are given and not blank and the new password has at least 8 characters after stripping |
| AuthSerializers.AuditLogReadOnly | backend/auth_app/serializers.py:55-68 | no field of an audit entry is writable |
| AuthViews.FindByEmail | backend/auth_app/views.py:56-62 | the lookup returns a user with that e-mail, or fails only if there is none |
| AuthViews.LoginChecksFieldsFirst | backend/auth_app/views.py:50-54 | a missing or empty e-mail or password gives 400, whatever accounts exist |
| AuthViews.LoginFailuresAlike | backend/auth_app/views.py:56-68 | an unknown e-mail and a wrong password get the same 401 "Invalid credentials" |
| AuthViews.LoginMeaning | backend/auth_app/views.py:43-86 | login succeeds iff an active account with that e-mail has that password; "User account is disabled" is answered iff the password matches an inactive account; every other failure is "Invalid credentials" |
| AuthViews.UserDirectory.Register | backend/auth_app/views.py:20-40 | invalid data gives 400 with the errors and stores nothing; a valid registration whose normalised e-mail is already stored fails with 500 and stores nothing; otherwise exactly the registered user, with the normalised e-mail, is stored; ids, e-mails and user names stay unique |
| AuthViews.UserDirectory.Insert | backend/auth_app/views.py:28 | saving a row succeeds iff its e-mail and user name are not yet stored; success appends exactly that row, failure changes nothing |
| AuthViews.LoginSpellingExact | backend/auth_app/views.py:56-74 | an account logs in under its stored address, and never under another spelling, which gets 401 unless another account stores it |
| AuthViews.RegisteredLoginSpelling | backend/auth_app/views.py:56-62 | an account that registration stored under a normalised address never logs in with the different spelling typed at registration, which gets 401 unless another account stores it as typed |
| AuthViews.LogoutOutcome | backend/auth_app/views.py:89-105 | no token gives 200 and changes nothing; a token gives 200 iff it was issued and is not yet blacklisted, and is then added to the blacklist; a token that never was issued or is already blacklisted gives 400 and changes nothing |
| AuthViews.LogoutReplayRefused | backend/auth_app/views.py:89-105 | the first logout with a token succeeds and blacklists it, the second is refused; without a token logout succeeds and changes nothing |
| AuthViews.TokenStore.Logout | backend/auth_app/views.py:89-105 | no token gives 200 and no change; otherwise the outcome and new blacklist are those of the logout function |
| RoleMigration.Normalized | backend/users/migrations/0002_normalize_roles.py:16-26 | a migrated user keeps their id, holds one of the three roles, and never loses the staff flag |
| RoleMigration.NormalizedCases | backend/users/migrations/0002_normalize_roles.py:16-26 | legacy admin titles become staff ADMINs, legacy manager titles staff MANAGERs, anything else including no role a MEMBER with the staff flag kept |
| RoleMigration.LegacyLookupIgnoresCase | backend/users/migrations/0002_normalize_roles.py:16-26 | a stored role and its upper-case spelling migrate alike, so `director` is recognised as `DIRECTOR` |
| RoleMigration.NotIdempotent | backend/users/migrations/0002_normalize_roles.py:7-26 | a second run makes every user a MEMBER with the staff flag of the first run, so everyone the first run made ADMIN or MANAGER is demoted |
| RoleMigration.ForwardsFunc | backend/users/migrations/0002_normalize_roles.py:4-27 | every user in the array is replaced by their migrated record |
| RoleMigration.MigrationOutcome | backend/users/migrations/0002_normalize_roles.py:15-27 | after the migration every user has a valid role, the same id, and nobody lost the staff flag |
| RoleMigration.ReverseFunc | backend/users/migrations/0002_normalize_roles.py:30-32 | the reverse migration changes nothing |
| TeamMetrics.GetUserDisplayName | frontend/src/utils/teamMetrics.js:5-11 | first and last name when both are present, else user name, else e-mail, else "Unknown"; never empty |
| TeamMetrics.GetStatusColor | frontend/src/utils/teamMetrics.js:14-25 | green exactly for done, amber exactly for in progress, and the todo grey for every other status |
| TeamMetrics.Percentage | frontend/src/utils/teamMetrics.js:97 | the rate is done·100/total, 0 without tasks, and between 0 and 100 |
| TeamMetrics.PercentageExtremes | frontend/src/utils/teamMetrics.js:97 | the rate is 0 iff nothing is done or there are no tasks, and 100 iff every task is done |
| TeamMetrics.PerMember | frontend/src/utils/teamMetrics.js:98 | tasks per member is total/users, 0 without users |
| TeamMetrics.VisitTasks | frontend/src/utils/teamMetrics.js:56-94 | the loop's counters equal the status and overdue counts and the member and unassigned tallies of the whole list |
| TeamMetrics.ComputeTeamMetrics | frontend/src/utils/teamMetrics.js:28-107 | every figure of the metrics object is the corresponding count or ratio of the task list, and the distribution repeats the status counts |
| TeamMetrics.StatusCountsAddUp | frontend/src/utils/teamMetrics.js:58-70 | todo, in progress and done add up to at most the total, exactly the total when every status is known |
| TeamMetrics.MemberKeys | frontend/src/utils/teamMetrics.js:77-99 | the members with statistics, counted as `active_members`, are exactly the distinct truthy assignees |
| TeamMetrics.MemberCounts | frontend/src/utils/teamMetrics.js:77-94 | a member's entry counts their tasks in total and per status; its overdue slot counts only tasks whose status is literally `overdue` |
| TeamMetrics.MemberAbsent | frontend/src/utils/teamMetrics.js:77-94 | a truthy id without an entry is assigned no task |
| TeamMetrics.TotalsAddUp | frontend/src/utils/teamMetrics.js:77-94 | member totals plus the unassigned total equal the number of tasks, plus one per task whose status is literally `total` |
| TeamMetrics.Score | frontend/src/utils/teamMetrics.js:120-122 | a completion rate is never negative and positive iff the member has tasks and completed some |
| TeamMetrics.ComputeTopPerformer | frontend/src/utils/teamMetrics.js:110-134 | no input or no positive rate gives null; otherwise the result is the first entry with the highest rate |
| TeamMetrics.FilterTasks | frontend/src/utils/teamMetrics.js:137-155 | the result keeps, in order, exactly the tasks that pass the status filter and the assignee mode |
| TeamMetrics.ShownFacts | frontend/src/utils/teamMetrics.js:141-152 | the two passes equal one filter by their conjunction, which yields a subsequence of the input |
| TeamMetrics.ValidateTask | frontend/src/utils/teamMetrics.js:158-181 | valid iff no errors; title, description and deadline errors occur exactly under their conditions, and an over-long title's message overrides the too-short one |
| TeamMetrics.FormTitleFitsRecord | frontend/src/utils/teamMetrics.js:161-167 | a title the form accepts, trimmed or not, meets the backend's 3-to-200 bounds |
| TeamMetrics.CanUserPerformAction | frontend/src/utils/teamMetrics.js:184-217 | false without a user, a task or a known action; `view` always true; `create` and `assign` iff ADMIN or MANAGER; `edit` and `update_status` iff ADMIN, MANAGER or assignee; `delete` iff ADMIN or creator; `comment` iff any of the four |
| TeamMetrics.ActionRightsNest | frontend/src/utils/teamMetrics.js:192-216 | assigning goes with creating and status updates with editing; creating implies editing; commenting is allowed iff editing or deleting is |
| TeamMetrics.DeleteRulesDisagree | frontend/src/utils/teamMetrics.js:202-203 | the front end and the backend disagree on delete exactly for a manager who did not create the task and for a creator who is neither ADMIN nor MANAGER |
| TeamMetrics.EditRulesDisagree | frontend/src/utils/teamMetrics.js:199-200 | they disagree on edit exactly for an assignee whose role string is not a valid role |
| TeamMetrics.AssignRulesAgree | frontend/src/utils/teamMetrics.js:205-206 | the front end allows assign exactly when the backend capability does |
| Util.Trim | frontend/src/utils/teamMetrics.js:161 | the trimmed string starts and ends outside the whitespace class, and is empty iff the string was blank |
| Util.TrimIsSlice | frontend/src/utils/teamMetrics.js:161 | the trimmed string is the slice of the input left after removing a leading and a trailing whitespace run |
| Signup.CalculatePasswordStrength | frontend/src/login/pages/SignupPage.js:50-54 | weak iff shorter than 6; strong only from 10 characters; at 10 or more, strong iff the three lookaheads succeed |
| Signup.StrongHasAllClasses | frontend/src/login/pages/SignupPage.js:52 | a strong password has a lower-case letter, an upper-case letter and a digit |
| Signup.SingleLineStrength | frontend/src/login/pages/SignupPage.js:52 | on one line, a password of at least 10 characters is strong iff it contains all three classes |
| Signup.LineBreakSeparatesClasses | frontend/src/login/pages/SignupPage.js:52 | classes split by a line break do not make a password strong |
| Signup.DisplayedStrength | frontend/src/login/pages/SignupPage.js:41-48 | the meter is empty iff the password is, and says weak iff it is non-empty and shorter than 6 |
| Signup.HandleSubmit | frontend/src/login/pages/SignupPage.js:91-108 | once the browser submits the form, the handler refuses a mismatch first, then a weak password; otherwise it posts the form unchanged |
| Signup.StepThreeRulesOutMismatch | frontend/src/login/pages/SignupPage.js:95-98 | a form that passed step 3 is never refused for a mismatch |
| Signup.EmptyPasswordLeftToServer | frontend/src/login/pages/SignupPage.js:100-103 | the handler's own checks let an empty password through, and the registration endpoint would refuse it under both password keys; on the page the inputs' `required` attribute stops such a submit first |
| Signup.SignupRolesRefused | frontend/src/login/pages/SignupPage.js:26-39 | every role the page offers is refused by registration under `role` (see Findings) |
| Signup.InitialForm | frontend/src/login/pages/SignupPage.js:8-16 | the initial form holds CITIZEN, one of the offered roles the server refuses, and cannot pass steps 1 or 3 |
| Signup.SignupRolesAccepted | frontend/src/login/pages/SignupPage.js:26-39 | with the corrected options, every offered role passes the role check and the registered user holds that role |
| Signup.InitialFormCorrected | frontend/src/login/pages/SignupPage.js:8-16 | with the corrected default, the initial role is MEMBER, which registration accepts |

## Left out

- I/O and the request/response layer are out of scope: HTTP status plumbing beyond the modelled codes, JSON rendering and logging.
- The ORM is modelled as sequences of records. Querysets are in stored order, and `MultipleObjectsReturned` cannot occur because e-mails are unique.
- Password hashing is an injective tag.
- `validate_password` is a boolean parameter.
- JWT issuing, decoding and blacklisting are sets of tokens.
- `authenticate` is not used by the modelled views.
- Clocks are an integer parameter in seconds. Time zones and date parsing are not modelled, and neither are invalid date strings in the front end.
- The password-reset approve, reject and confirm handlers are not part of this model; their source is not in the repository. Only the record, its predicates and the validators are modelled.
- E-mail format validation by `EmailField` is not modelled.
- The browser's constraint validation on the sign-up page is not modelled: the two password inputs marked `required` (`frontend/src/login/pages/SignupPage.js:353` and 407) keep the step-3 form from being submitted while one of them is empty, before `handleSubmit` runs. The step-1 fields are unmounted by then; they are non-empty at submit because `validateStep(1)` guards the Next button (`Signup.ValidateStep`).
- A `search` parameter on a task's detail, update, destroy or assign route is not modelled: the view's search filter also applies to the object lookup, so a task whose title and description lack the term answers 404.
- Assign: a non-numeric `assignee_id` makes the user lookup raise, which the source answers with 500; the model takes the id as a number and does not model that path.
- FieldErrors: the user-name validator's `\w` is taken on ASCII (letters, digits, underscore); Python also accepts non-ASCII letters and digits, which the model refuses. The 150-character limits of the first and last name are not checked.
- RegisteredUser: `create_user` also applies NFKC normalisation to the user name, which changes no ASCII name and is not modelled; the e-mail domain is lower-cased by ASCII rules only.
- The configuration error Django raises for serializer fields the model lacks (`middle_name`, `profile_image`, `phone_number`) is not modelled.
- Concurrency and transactions are not modelled. Uniqueness constraints are invariants of the stores.
- Character fields strip surrounding whitespace by Python's `str.strip` rules. Unicode case mapping is ASCII only, in the migration's `upper()` and in `icontains`.
- String lengths are counted in Dafny characters, not JavaScript UTF-16 code units.
- `users/models.py` gives `User` a foreign key to `Role`, whose names are lower-case. The mixin, the serializers, the views and the migration use the upper-case `User.Role` choices. Both readings are modelled; which one the database holds is not.
- Front-end numbers are exact reals. Floating-point rounding is not modelled.
- A status outside the three values increments a fresh (NaN) counter in the front end's member and unassigned tallies; that extra key is not modelled.
- JavaScript object keys are strings, so the assignee `1` and the assignee `"1"` share an entry. The model keys by integer.
- `undefined` and `null` are both `None`.
- `computeTopPerformer` walks its input's entries in the given order; the order in which a JavaScript engine enumerates object keys is not modelled.
- `avg_completion_time` is always 0 in the source and in the model.
- React state, effects, rendering and navigation are not modelled. The regular expression is modelled by its lookahead semantics.
- The rendering of an audit entry's `created_at` is a string parameter.

## Findings

| source | as written | input that shows it | evidently intended | confidence | as-written member | corrected member |
|---|---|---|---|---|---|---|
| backend/tasks/views.py:26-36, 62 | `get_permissions` overrides the `permission_classes=[IsAuthenticated, CanAssignTasks]` declared on `assign`, so `assign` needs only authentication | an authenticated MEMBER posting `assign` on a task assigned to them | only users who can assign tasks (ADMIN, MANAGER) may assign | high, not executed | TaskViews.AssignAsWrittenAdmitsMembers | TaskViews.AssignIntendedNeedsCapability |
| frontend/src/login/pages/SignupPage.js:15, 26-39 | the sign-up page offers and defaults to the roles CITIZEN and WASTE_COLLECTOR, which the registration serializer's choices (MEMBER, MANAGER) reject | any completed sign-up form, e.g. role CITIZEN | offer the two roles open to self-registration, MEMBER first | high, not executed | Signup.SignupRolesRefused | Signup.SignupRolesAccepted |
