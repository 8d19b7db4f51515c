# ColdFront core rules in Dafny

ColdFront is a web portal where research-computing centres manage projects and
allocations. Users belong to projects through memberships: a project user row
holds a role (User or Manager) and a status. Users hold allocations of
resources through allocation-user rows that carry a status: Active, Removed,
PendingEULA, DeclinedEULA or Error. Under its Django views and forms lies a
layer of small sequential rules. This project models that layer and proves
properties of it.

- **Membership state machine** (`membership.dfy`, `eula.dfy`). The store is a
  `class Db` with maps from `(project, user)` and `(allocation, user)` keys to
  rows. Signals and e-mails are appended to an event log `events`. The model
  covers adding and removing users, the removal cascade over a project's
  allocations, and the EULA status a newly added user gets.
- **Allocation and project lifecycle** (`allocation_detail.dfy`,
  `allocation_requests.dfy`, `allocation_change.dfy`, `project_views.dfy`).
  It covers:
  - the status and date transitions of the allocation detail post;
  - the EULA answer;
  - creation;
  - the add, remove, renew and change gates;
  - the approval of change requests;
  - project archiving;
  - membership role and notification updates;
  - the project add-users and remove-users loops.
- **Validators** (`allocation_forms.dfy`): date order, the allocation limit,
  the initial status, the user formset clean, change detection, the extension
  choices, and the attribute change clean.
- **String and decision helpers** (`text.dfy`, `project_code.dfy`,
  `mixins.dfy`, `view_helpers.dfy`, `institution.dfy`, `project_utils.dfy`):
  - project codes, built as `zfill`d keys;
  - snake-case template names;
  - sort and query strings;
  - institution lookup by e-mail domain;
  - permission predicates;
  - the seeding of the choice tables.

`store.dfy` holds the records and `class Db`. `choices.dfy` holds the status
and role enumerations with their stored names. `wrappers.dfy` holds
`Option`. Dates are integer day numbers. The clock, the settings and the
query orders are parameters.

Where a view's behaviour is a decision, the model has two parts:
- a pure function of the state before the request (for example
  `AllocationChange.PostOutcome`, `ProjectViews.UserDetailDecision`,
  `ProjectViews.NotificationDecision`);
- the method that performs the request, whose `ensures` ties its outcome to
  that function and states the whole new state.

Lemmas then state the rules the source promises about the function.

Some behaviours of the source are modelled as they are, though they may
surprise a reader:
- Approving an allocation that is already Active does not change its status.
  The ORIGINAL posted data is saved, posted status included, and no signal is
  sent (`AllocationDetail.DetailPost`).
- Approving the same change request twice extends the end date twice.
- An approval that extends an allocation with no end date raises a TypeError
  after the request has been saved. This is the `ChangeCrashed` outcome of
  `AllocationChange.SavedPhaseOutcome`.
- The approval loop over the attribute rows reads the allocation from the
  attribute form, which has no such field. The first row's attribute is
  saved and the loop then raises an AttributeError: the other rows, the
  attribute signals, the approval signal and the e-mail never happen. This is
  the `ChangeLoopCrashed` outcome, and `AllocationChange.ApproveSaved` states
  the state it leaves.
- The "You must make a change" refusal never happens, because a formset object
  is always truthy (`AllocationChange.ChangeRequestedAsWrittenAlways`).
- With invoicing on and INVOICE_DEFAULT_STATUS unset, the allocation form's
  fallback status "Pending Payment" names no status, so the clean fails
  (`AllocationForms.AllocationFormClean`).
- The EULA reminder on the allocation detail page never shows
  (`AllocationDetail.EulaReminderAsWritten`).

The views and forms follow the code as written. Each of the last four has a
corrected version beside it, with the intended property proved. The
Findings section pairs them.
- The change view's lock refuses superusers too (`AllocationRequests.ChangeDispatch`).
- The project remove-users and add-users views turn an archived project away
  before the permission test runs (`ProjectViews.MembershipGate`).
- `ProjectUserDetail.post` falls off its end for a member of another project
  or for an invalid form. Then no response is returned (`DetailNoResponse`).

## Model

| member | source | states |
|---|---|---|
| Choices.AllocationStatusNamed | coldfront/core/allocation/views.py:1124 | a status found has that name, and nothing is found only when no status has that name |
| Choices.AllocationStatusNameRoundTrip | coldfront/core/allocation/views.py:217-219 | looking up a status's name gives back that status |
| Choices.AllocationUserStatusNameInjective | coldfront/core/allocation/forms.py:229-230 | different allocation-user statuses are stored under different names |
| Text.LowerChar | coldfront/core/utils/mixins/views.py:33 | an ASCII capital becomes its small letter (code point + 32); every other character, non-ASCII letters included, is left alone, so no ASCII capital remains |
| Text.UpperChar | coldfront/core/project/utils/project_code_utils.py:19 | an ASCII small letter becomes its capital (code point - 32); every other character, non-ASCII letters included, is left alone, so no small ASCII letter remains |
| Text.Lower | coldfront/core/utils/mixins/views.py:33 | `lower()` restricted to ASCII: the length is kept and each character is mapped with LowerChar |
| Text.Upper | coldfront/core/project/utils/project_code_utils.py:19 | `upper()` restricted to ASCII: the length is kept and each character is mapped with UpperChar |
| Text.NatToString | coldfront/core/project/utils/project_code_utils.py:19 | `str(n)` of a natural number is a non-empty digit string that starts with '0' exactly when n is 0 |
| Text.IntToString | coldfront/core/project/utils/project_code_utils.py:19 | `str(n)` is the digits of n for n >= 0, and '-' followed by the digits of -n otherwise |
| Text.DecimalValueOfNatToString | coldfront/core/project/utils/project_code_utils.py:19 | the digits `str(n)` writes denote n |
| Text.DecimalValueLeadingZeros | coldfront/core/project/utils/project_code_utils.py:19 | zeros in front of a digit string leave its value unchanged |
| Text.StripLeadingZeros | coldfront/core/project/utils/project_code_utils.py:19 | stripping leading zeros leaves a suffix of the input that does not start with '0' |
| Text.ZFillDigits | coldfront/core/project/utils/project_code_utils.py:19 | `zfill` of a digit string puts max(0, width - len) zeros in front of it |
| Text.ZFillLength | coldfront/core/project/utils/project_code_utils.py:19 | `zfill` yields max(width, len) characters |
| Text.Split | coldfront/core/project/utils/view_helper_utils.py:156-158 | `split()` yields words that are non-empty and contain no separator; SplitEmpty, SplitWord and SplitAtSeparator pin down which words |
| Text.SplitEmpty | coldfront/core/project/utils/view_helper_utils.py:156-158 | `split()` yields no word iff the string is all separators |
| Text.SplitWord | coldfront/core/project/utils/view_helper_utils.py:156-158 | a word without separators splits into itself |
| Text.TakeWordBeforeSpace | coldfront/core/project/utils/view_helper_utils.py:156-158 | a word is never read past a separator |
| Text.SplitAtSeparator | coldfront/core/project/utils/view_helper_utils.py:156-158 | splitting around a separator gives the words before it followed by the words after it |
| ProjectCode.GenerateProjectCode | coldfront/core/project/utils/project_code_utils.py:8-19 | the code starts with the upper-cased prefix |
| ProjectCode.ProjectCodeLength | coldfront/core/project/utils/project_code_utils.py:19 | for a non-negative key the code has len(prefix) + max(padding, digits of the key) characters |
| ProjectCode.ProjectCodeNoPadding | coldfront/core/project/utils/project_code_utils.py:19 | a padding no wider than the key's digits (padding 0 in particular) adds nothing after `str(pk)` |
| ProjectCode.ProjectCodeRoundTrip | coldfront/core/project/utils/project_code_utils.py:19 | after the prefix come only digits, whose value is the key; for a positive key, stripping zeros gives exactly `str(pk)` |
| ProjectCode.PaddingSetting | coldfront/core/project/utils/project_code_utils.py:26 | an absent or zero padding setting gives 0, any other the setting |
| ProjectCode.WithProjectCode | coldfront/core/project/utils/project_code_utils.py:22-28 | the code changes only when the feature is on and the code is empty, and then to the generated code; every other field is kept |
| ProjectCode.WithProjectCodeIdempotent | coldfront/core/project/utils/project_code_utils.py:24-28 | a second call changes nothing |
| ProjectCode.AddProjectCodeIfMissing | coldfront/core/project/utils/project_code_utils.py:22-28 | only the project_code field of that project is written, with WithProjectCode's value |
| EulaUtils.DetermineEulaStatus | coldfront/core/project/utils/eula_utils.py:9-25 | the result is always Active or PendingEULA |
| EulaUtils.DetermineEulaStatusPending | coldfront/core/project/utils/eula_utils.py:11-25 | PendingEULA exactly when EULAs are on, the allocation has one, and the user is not already an Active user of it |
| EulaUtils.DetermineEulaStatusFixpoint | coldfront/core/project/utils/eula_utils.py:18-25 | after the row is given the status decided, deciding again gives the same status |
| EulaUtils.DetermineEulaStatusLocal | coldfront/core/project/utils/eula_utils.py:18-22 | the decision reads only that user's row of that allocation |
| UserManagement.CascadeAllocations | coldfront/core/project/utils/user_management_utils.py:58-60 | the allocations visited are exactly the project's allocations in status Active, New or Renewal Requested |
| UserManagement.RemovedFromFrame | coldfront/core/project/utils/user_management_utils.py:71-73 | removal turns only the Active rows of that user in the visited allocations into Removed; every other row keeps its status, and no row is added or dropped |
| UserManagement.RemovedFromIdempotent | coldfront/core/project/utils/user_management_utils.py:71-73 | removing twice is removing once |
| UserManagement.RemovedFromStep | coldfront/core/project/utils/user_management_utils.py:61-62 | removing from one more allocation extends the removal to that allocation |
| UserManagement.AddUserToProject | coldfront/core/project/utils/user_management_utils.py:11-36 | an existing membership gets the new role and status Active with created false; otherwise a new Active row is created with created true; one activate signal iff send_signals; nothing else changes |
| UserManagement.RemoveUserFromAllocation | coldfront/core/project/utils/user_management_utils.py:67-79 | an Active row becomes Removed, with one remove signal when asked; any other row, or no row, is left alone |
| UserManagement.RemoveUserFromProject | coldfront/core/project/utils/user_management_utils.py:39-64 | the PI, or a user without an Active membership, gives false and changes nothing; otherwise the membership becomes Removed, the result is true, and the cascade removes the user from exactly the Active, New and Renewal Requested allocations of the project |
| UserManagement.MarkProjectUserRemoved | coldfront/core/project/utils/user_management_utils.py:47-55 | the membership's status becomes Removed and its signal is sent when asked; nothing else changes |
| UserManagement.RemovalSignalsExactly | coldfront/core/project/utils/user_management_utils.py:71-79 | the cascade sends one remove signal for each visited allocation where the user was Active, and nothing else |
| UserManagement.RemoveUserFromAllocations | coldfront/core/project/utils/user_management_utils.py:61-62 | the loop leaves the table as RemovedFrom the visited set and appends the cascade signals in visiting order |
| UserManagement.AddUserToAllocation | coldfront/core/project/utils/user_management_utils.py:82-112 | the row gets the status (Active by default), created if missing; an existing row with that status is untouched; activated iff the row is created Active or changes to Active; the signal is sent iff activated and asked for |
| InstitutionUtils.AfterFirst | coldfront/core/project/utils/institution_utils.py:21-24 | the result is what follows the first occurrence of the character |
| InstitutionUtils.EmailDomain | coldfront/core/project/utils/institution_utils.py:21-24 | the domain exists exactly when the address has one '@', and it is then the text after it |
| InstitutionUtils.EmailDomainOf | coldfront/core/project/utils/institution_utils.py:21-24 | `local@domain` with no other '@' has domain `domain` |
| InstitutionUtils.Lookup | coldfront/core/project/utils/institution_utils.py:26 | the map lookup finds a value exactly when some item has that key, and the value found belongs to such an item |
| InstitutionUtils.FirstSubstringMatch | coldfront/core/project/utils/institution_utils.py:32-35 | the match is the value of the first key that occurs in the domain, and no earlier key occurs |
| InstitutionUtils.InstitutionChoice | coldfront/core/project/utils/institution_utils.py:8-37 | with no domain and a non-empty map the call raises; otherwise it returns the institution chosen |
| InstitutionUtils.InstitutionChoicePreference | coldfront/core/project/utils/institution_utils.py:26-37 | a non-empty exact-domain entry wins; failing that, the first key occurring in the domain; failing that, the current institution |
| InstitutionUtils.DetermineAutomatedInstitutionChoice | coldfront/core/project/utils/institution_utils.py:8-37 | the loop returns InstitutionChoice; the project's institution becomes the value returned, and nothing is written when it raises |
| InstitutionUtils.FirstMatchAt | coldfront/core/project/utils/institution_utils.py:32-35 | a key that occurs in the domain, with no earlier key occurring, is the first substring match |
| InstitutionUtils.AddInstitution | coldfront/core/project/utils/institution_utils.py:40-46 | without the map setting nothing happens; otherwise the choice is made |
| ViewHelpers.UserIsPiOrManager | coldfront/core/project/utils/view_helper_utils.py:18-29 | holds iff the user is a superuser, the PI, or an Active Manager of the project |
| ViewHelpers.UserCanViewProject | coldfront/core/project/utils/view_helper_utils.py:32-43 | holds iff the user is a superuser, may view all projects, or is an Active member in any role |
| ViewHelpers.ManagerCanView | coldfront/core/project/utils/view_helper_utils.py:18-43 | anyone other than the PI who may manage a project may also view it |
| ViewHelpers.SortPrefix | coldfront/core/project/utils/view_helper_utils.py:58-62 | "asc" gives no prefix, "des" gives "-", any other direction is used as the prefix |
| ViewHelpers.HandleSortingParams | coldfront/core/project/utils/view_helper_utils.py:56-63 | "name" is returned as is whatever the direction; any other column gets the prefix |
| ViewHelpers.HandleSortingParamsEndsWithColumn | coldfront/core/project/utils/view_helper_utils.py:56-63 | the column is always the tail of the result, and the prefix is all that is added |
| ViewHelpers.SortParamsToQueryString | coldfront/core/project/utils/view_helper_utils.py:66-67 | the query string starts with "order_by="; SortQueryRoundTrip reads both parameters back |
| ViewHelpers.SplitAtFirst | coldfront/core/project/utils/view_helper_utils.py:66-67 | splitting at the first occurrence gives a part without the character, the character and the rest |
| ViewHelpers.SortQueryRoundTrip | coldfront/core/project/utils/view_helper_utils.py:66-67 | a column without '&' is read back, with its direction, from the query string |
| ViewHelpers.Param | coldfront/core/project/utils/view_helper_utils.py:75-79 | one parameter is non-empty and ends with '&' |
| ViewHelpers.ListParams | coldfront/core/project/utils/view_helper_utils.py:74-76 | a list value gives nothing iff the list is empty; otherwise parameters that start with `key=` and end with '&' |
| ViewHelpers.ItemParams | coldfront/core/project/utils/view_helper_utils.py:73-79 | a value gives nothing iff it is falsy; otherwise parameters that start with `key=` and end with '&' |
| ViewHelpers.QueryString | coldfront/core/project/utils/view_helper_utils.py:70-79 | the query string is empty iff no value is truthy, and ends with '&' otherwise |
| ViewHelpers.FormDataToQueryString | coldfront/core/project/utils/view_helper_utils.py:70-79 | the loop builds QueryString of the items in dictionary order |
| ViewHelpers.AppendListParams | coldfront/core/project/utils/view_helper_utils.py:74-76 | the inner loop appends one `key=ele&` per element of a list value, in order |
| ViewHelpers.QueryStringAppend | coldfront/core/project/utils/view_helper_utils.py:70-79 | items are rendered one by one, in order: the query string of a concatenation is the concatenation |
| ViewHelpers.KeepIn | coldfront/core/project/utils/view_helper_utils.py:157-160 | a token is kept iff it occurs in the given list; each kept token occurs as often as in the search, the others not at all; the kept tokens are a subsequence of the search, in its order |
| ViewHelpers.KeepTokens | coldfront/core/project/utils/view_helper_utils.py:157-160 | the loop over the search words keeps exactly KeepIn |
| ViewHelpers.SubsequenceSnoc | coldfront/core/project/utils/view_helper_utils.py:157-160 | appending to the search, and to what was kept from it, keeps the subsequence relation |
| ViewHelpers.GetProjectUserSearchResults | coldfront/core/project/utils/view_helper_utils.py:144-163 | the matches keep their number and order, each with role User and its other fields kept; a search of more than one word replaces the already-in-project list by KeepIn of its words, a shorter one keeps it |
| ProjectUtils.ProjectIsArchived | coldfront/core/project/utils/utils.py:39-41 | holds iff the status is neither Active nor New |
| ProjectUtils.ProjectIsArchivedIff | coldfront/core/project/utils/utils.py:39-41 | of the three project statuses only Archived counts as archived |
| ProjectUtils.SeedsNameTheChoices | coldfront/core/project/utils/utils.py:6-36 | the seed lists are exactly New, Active and Archived; User and Manager; Active, Pending Remove, Denied and Removed; no list repeats a name |
| ProjectUtils.Seeded | coldfront/core/project/utils/utils.py:14 | get_or_create over a list leaves exactly the names that were there and the seeded ones, and creates no duplicate |
| ProjectUtils.SeededIdempotent | coldfront/core/project/utils/utils.py:14 | seeding twice leaves the table as seeding once |
| ProjectUtils.AllPresent | coldfront/core/project/utils/utils.py:14 | seeding names already present adds no row |
| ProjectUtils.SeededEmpty | coldfront/core/project/utils/utils.py:6-14 | seeding an empty table gives exactly the seed list |
| ProjectUtils.SeededFresh | coldfront/core/project/utils/utils.py:14 | seeding names that are all new, with no duplicates, appends them in order |
| ProjectUtils.ChoiceTable.constructor | coldfront/core/project/utils/utils.py:6-8 | the table starts with the given rows |
| ProjectUtils.ChoiceTable.GetOrCreate | coldfront/core/project/utils/utils.py:14 | a row is created iff none has that name; otherwise the table is unchanged |
| ProjectUtils.ChoiceTable.Seed | coldfront/core/project/utils/utils.py:13-14 | the loop leaves the table as Seeded |
| ProjectUtils.AddProjectStatusChoices | coldfront/core/project/utils/utils.py:6-14 | the status table is Seeded with New, Active and Archived |
| ProjectUtils.AddProjectUserRoleChoices | coldfront/core/project/utils/utils.py:17-24 | the role table is Seeded with User and Manager |
| ProjectUtils.AddProjectUserStatusChoices | coldfront/core/project/utils/utils.py:27-36 | the status table is Seeded with Active, Pending Remove, Denied and Removed |
| Mixins.Underscored | coldfront/core/utils/mixins/views.py:33 | the substitution adds one character per capital |
| Mixins.ToSnake | coldfront/core/utils/mixins/views.py:28-33 | an empty name fails; otherwise the result has no capitals, starts with the lower-cased first character, and is one character longer per capital after the first |
| Mixins.LowerUnderscored | coldfront/core/utils/mixins/views.py:33 | substituting then lower-casing is the character-by-character transformation |
| Mixins.CamelSnakeRest | coldfront/core/utils/mixins/views.py:33 | capitalising after each underscore undoes the transformation of a string of letters |
| Mixins.ToSnakeRoundTrip | coldfront/core/utils/mixins/views.py:28-33 | for a letter-only class name starting with a capital, the snake-case name gives the class name back |
| Mixins.ToSnakeCapitalRun | coldfront/core/utils/mixins/views.py:29-31 | a run of capitals is split letter by letter |
| Mixins.TemplateNames | coldfront/core/utils/mixins/views.py:27-38 | exactly one template, or none for an empty model name |
| Mixins.TemplateNamesShape | coldfront/core/utils/mixins/views.py:35-38 | the template sits under the app label, ends in the suffix and ".html", and its model part has no capitals |
| Mixins.ChangesOnlyOnActiveProject | coldfront/core/utils/mixins/views.py:76-86 | a missing project is a 404; otherwise the request is let through iff the status is Active or New |
| Mixins.ChangesOnlyOnActiveProjectArchived | coldfront/core/utils/mixins/views.py:76-86 | the gate refuses exactly the projects project_is_archived calls archived |
| Mixins.ActiveManagerOrHigher | coldfront/core/utils/mixins/views.py:89-103 | the 404 happens exactly for a non-superuser on a missing project; a superuser passes before any lookup |
| Mixins.ActiveManagerOrHigherAgrees | coldfront/core/utils/mixins/views.py:89-103 | on an existing project the mixin admits exactly the users user_is_pi_or_manager admits |
| AllocationForms.UpdateFormClean | coldfront/core/allocation/forms.py:169-175 | an error iff both dates are given and the end precedes the start |
| AllocationForms.UpdateFormCleanOrders | coldfront/core/allocation/forms.py:169-175 | a clean that passes saves ordered dates |
| AllocationForms.CountedAllocations | coldfront/core/allocation/forms.py:122-132 | exactly the project's allocations on the resource in Active, New, Renewal Requested, Paid, Payment Pending or Payment Requested |
| AllocationForms.InvoiceDefaultAsWritten | coldfront/core/allocation/forms.py:37-38 | as written, an invoiced request with the setting unset fails the status lookup |
| AllocationForms.InvoiceDefaultCorrected | coldfront/core/allocation/forms.py:135-140 | with the corrected fallback such a request starts in Payment Pending |
| AllocationForms.AllocationFormClean | coldfront/core/allocation/forms.py:37-38 | the clean as written is CleanWith the fallback "Pending Payment": an invoiced request that passes the account and limit rules, with the setting unset, fails the status lookup |
| AllocationForms.CleanWith | coldfront/core/allocation/forms.py:103-143 | the account rule refuses iff it applies; the limit rule iff it applies and the account rule does not; then the status lookup fails iff invoicing applies and no status has the invoice name; a passing request gets that status, or New when invoicing does not apply |
| AllocationForms.AllocationFormCleanCorrected | coldfront/core/allocation/forms.py:135-140 | with the fallback corrected to "Payment Pending", an unset setting never fails the lookup, an invoiced request starts in Payment Pending, and a request past both rules is cleaned |
| AllocationForms.AllocationLimitKept | coldfront/core/allocation/forms.py:122-132 | after a valid request the counted allocations do not exceed a truthy limit |
| AllocationForms.CleanUserFormset | coldfront/core/allocation/forms.py:215-234 | with errors nothing is done; on ADD exactly the selected forms held for the EULA become PendingEULA; on REMOVE the clean fails iff a selected form names the PI |
| AllocationForms.ExtensionChoices | coldfront/core/allocation/forms.py:338-340 | (0, "No Extension") and then (N, "N days") for each configured N, in order |
| AllocationForms.HasChanged | coldfront/core/allocation/forms.py:355-359 | changed iff a field other than justification and notes changed |
| AllocationForms.HasChangedIgnoresNotes | coldfront/core/allocation/forms.py:355-359 | editing justification or notes alone never counts, and adding them changes nothing |
| AllocationForms.CleanAttributeChange | coldfront/core/allocation/forms.py:374-387 | asking for the current value is refused; otherwise a non-empty value is taken in memory |
| AllocationForms.CleanAttributeChangeEffect | coldfront/core/allocation/forms.py:374-387 | a passing clean changes the attribute in memory exactly when a non-empty value was asked for |
| AllocationForms.ReviewUserDecision | coldfront/core/allocation/forms.py:285-297 | keep_in_project_only removes the user from the allocation, remove_from_project removes them from the project, anything else keeps them |
| AllocationForms.ReviewChoicesDistinct | coldfront/core/allocation/forms.py:272-278 | the three choices lead to three different actions |
| AllocationDetail.SignalledUsersExactly | coldfront/core/allocation/views.py:240-269 | activation signals exactly the Active users; removal signals exactly the users that are Active, PendingEULA or DeclinedEULA |
| AllocationDetail.ForcedStatus | coldfront/core/allocation/views.py:216-219 | approve and auto-approve force Active, deny forces Denied, update keeps the posted status |
| AllocationDetail.TransitionData | coldfront/core/allocation/views.py:216-284 | the status is ForcedStatus; becoming Active sets a missing start date to now and the end date to now + length when approving or when none was posted; becoming Denied, New or Revoked clears both dates; any other status keeps the posted dates; the lock is kept |
| AllocationDetail.SignalledUsers | coldfront/core/allocation/views.py:240-269 | a user is signalled iff the new status signals users and the user's row is not in the excluded statuses |
| AllocationDetail.PostSaveEvents | coldfront/core/allocation/views.py:291-302 | nothing for a status without signals; otherwise the allocation signal, one user signal per user in order, and the e-mail with the status's subject |
| AllocationDetail.UserSignals | coldfront/core/allocation/views.py:296-298 | one signal per visited user, in order, of the kind the new status calls for |
| AllocationDetail.ApprovalPassesDateCheck | coldfront/core/allocation/views.py:232-237 | approving without a start date always passes the date check |
| AllocationDetail.SavedDatesOrdered | coldfront/core/allocation/views.py:286-290 | whatever is saved has ordered dates |
| AllocationDetail.DetailPost | coldfront/core/allocation/views.py:202-304 | a non-superuser or a bad action changes nothing; an unchanged status saves the original posted data with no signal; otherwise the transition data is saved if valid, and the allocation signal, the per-user signals and the e-mail follow |
| AllocationDetail.SendPostSave | coldfront/core/allocation/views.py:291-302 | appends the allocation signal, one signal per user selected, and the e-mail |
| AllocationDetail.UserSignalLoop | coldfront/core/allocation/views.py:296-298 | one signal for each user of the set, in visiting order |
| AllocationDetail.EulaReminderAsWritten | coldfront/core/allocation/views.py:136-141 | as written the EULA reminder never shows |
| AllocationDetail.EulaReminder | coldfront/core/allocation/views.py:136-141 | corrected, it shows iff EULAs are on, the allocation is Active and the user's row is PendingEULA |
| AllocationDetail.MayAnswerEula | coldfront/core/allocation/views.py:357-362 | a user may answer iff they have a row in the allocation that is not Removed or DeclinedEULA |
| AllocationDetail.EulaPost | coldfront/core/allocation/views.py:355-403 | accept makes the row Active after the optional e-mail and the activation; decline makes it DeclinedEULA; any other action is a bad request; only allocation-user rows change |
| AllocationDetail.EulaAnswerFinal | coldfront/core/allocation/views.py:365-384 | after declining the user may no longer answer; after accepting they are Active and still may |
| AllocationRequests.CreateDispatch | coldfront/core/allocation/views.py:557-573 | a pending review refuses first, then an archived project, else the request proceeds |
| AllocationRequests.CreatedUserStatus | coldfront/core/allocation/views.py:629-642 | always Active or PendingEULA; the requester and everyone with EULAs off are Active; PendingEULA iff EULAs are on and the username differs from the requester's |
| AllocationRequests.CreatedUsers | coldfront/core/allocation/views.py:626-628 | the selected users and the PI, each once |
| AllocationRequests.CreateFormValid | coldfront/core/allocation/views.py:618-666 | a new allocation with the cleaned status and resources, one row per created user with its status, then the admin e-mail and the signal |
| AllocationRequests.SaveCreated | coldfront/core/allocation/views.py:618-666 | the allocation and its rows are stored, then the events are appended |
| AllocationRequests.CreateRows | coldfront/core/allocation/views.py:636-642 | one row per user, each with CreatedUserStatus |
| AllocationRequests.AddUsersAllowed | coldfront/core/allocation/views.py:688-706 | refused iff locked for a non-superuser or the status is outside the add list |
| AllocationRequests.RemoveUsersAllowed | coldfront/core/allocation/views.py:793-807 | refused iff locked for a non-superuser or the status is outside the remove list |
| AllocationRequests.RemoveGateWithinAddGate | coldfront/core/allocation/views.py:692-807 | wherever users may be removed they may be added, and the billing statuses allow adding only |
| AllocationRequests.AddCandidates | coldfront/core/allocation/views.py:711-731 | the Active members of the project with no row in the allocation, other than the PI |
| AllocationRequests.AddInitialStatus | coldfront/core/allocation/views.py:720-721 | new rows start PendingEULA iff EULAs are on, and Active iff they are off |
| AllocationRequests.RemoveCandidates | coldfront/core/allocation/views.py:810-816 | the allocation's users not Removed or Error, other than the PI and the requester |
| AllocationRequests.CandidatesDisjoint | coldfront/core/allocation/views.py:711-816 | neither list offers the PI, and nobody is offered both for adding and for removal |
| AllocationRequests.RemoveSignals | coldfront/core/allocation/views.py:839-843 | one remove signal per saved row, in order |
| AllocationRequests.MarkRemoved | coldfront/core/allocation/views.py:834-838 | exactly the saved rows become Removed; the others are kept |
| AllocationRequests.RemoveUsersFormsetValid | coldfront/core/allocation/views.py:834-845 | the saved rows become Removed, their signals are appended in order, and the message reports the count |
| AllocationRequests.RemoveSignalLoop | coldfront/core/allocation/views.py:839-843 | the loop builds RemoveSignals |
| AllocationRequests.RemovedMessage | coldfront/core/allocation/views.py:844-845 | "Removed 1 user from allocation." for one, "Removed N users from allocation." otherwise |
| AllocationRequests.RemovedMessageSingular | coldfront/core/allocation/views.py:844-845 | the message is singular exactly when one user was removed |
| AllocationRequests.RenewDispatch | coldfront/core/allocation/views.py:1072-1093 | renewal needs the feature enabled, an Active allocation, no project review pending, and at most 60 days left, checked in that order |
| AllocationRequests.RenewReviewUsers | coldfront/core/allocation/views.py:1095-1101 | the allocation's users not Removed, other than the PI and the requester |
| AllocationRequests.RenewFormsetValid | coldfront/core/allocation/views.py:1121-1135 | returns each review's decision; the allocation becomes Renewal Requested and the admins are mailed |
| AllocationRequests.RenewedNotRenewable | coldfront/core/allocation/views.py:1072-1125 | a renewed allocation cannot be renewed again until it is Active once more |
| AllocationRequests.ChangeDispatch | coldfront/core/allocation/views.py:1597-1629 | the checks in their order; a lock refuses superusers too |
| AllocationRequests.ChangeGateWithinAddGate | coldfront/core/allocation/views.py:1597-1629 | a change can be requested only where users could be added, and never on a New allocation |
| AllocationChange.ParseChangeAction | coldfront/core/allocation/views.py:1438-1440 | exactly update, approve and deny are accepted |
| AllocationChange.BoundExtension | coldfront/core/allocation/forms.py:342-348 | a request no longer Pending keeps its stored extension; an empty field on a Pending one gives 0 |
| AllocationChange.FormValid | coldfront/core/allocation/views.py:1445-1446 | the form is valid iff the bound extension is 0 or a configured choice; for a non-Pending request that is the stored extension |
| AllocationChange.ChangedFields | coldfront/core/allocation/forms.py:355-359 | the extension is listed iff it differs, and the notes iff they were edited |
| AllocationChange.FormChangedIffExtension | coldfront/core/allocation/forms.py:355-359 | the form has changed iff the extension bound differs from the stored one |
| AllocationChange.FormsetValid | coldfront/core/allocation/forms.py:374-387 | the formset is valid iff it has one value per row and every value differs from the attribute's current value |
| AllocationChange.ChangeRequestedAsWrittenAlways | coldfront/core/allocation/views.py:1478 | as written, "You must make a change" never happens for a valid formset |
| AllocationChange.ChangeRequested | coldfront/core/allocation/views.py:1475-1481 | corrected: a change was requested iff the form changed or some attribute change is left |
| AllocationChange.ChangeRequestedDiffers | coldfront/core/allocation/views.py:1475-1481 | a request with no attribute changes and no new extension is refused by the corrected test but passes the test as written |
| AllocationChange.WithNewValues | coldfront/core/allocation/views.py:1492 | each row takes its posted value and keeps its attribute |
| AllocationChange.SavedRequest | coldfront/core/allocation/views.py:1491-1492 | the allocation, status and justification are kept; the notes come from the form and the extension as bound; the row count is kept |
| AllocationChange.SavedRequestKeepsAttributes | coldfront/core/allocation/views.py:1491-1492 | the saved request lists the same attributes |
| AllocationChange.ApplyValues | coldfront/core/allocation/views.py:1510-1515 | the attributes keep their keys |
| AllocationChange.ApplyValuesLastWrite | coldfront/core/allocation/views.py:1510-1515 | each listed attribute holds the last value asked for it, and every other attribute is unchanged |
| AllocationChange.AttributeSignals | coldfront/core/allocation/views.py:1516-1520 | one signal per row |
| AllocationChange.AttributeSignalsEach | coldfront/core/allocation/views.py:1516-1520 | the i-th signal names the i-th row's attribute and the request's allocation |
| AllocationChange.Extended | coldfront/core/allocation/views.py:1503-1507 | only a positive extension moves the allocation's end date, by that many days; nothing else changes |
| AllocationChange.ApplyAttributeChanges | coldfront/core/allocation/views.py:1510-1520 | the corrected loop gives ApplyValues and AttributeSignals |
| AllocationChange.AsWrittenLoopAttributes | coldfront/core/allocation/views.py:1511-1517 | as written only the first row's attribute takes its new value; the keys, the allocations and every other attribute are kept |
| AllocationChange.ApplyAttributeChangesAsWritten | coldfront/core/allocation/views.py:1511-1522 | as written, the loop leaves AsWrittenLoopAttributes, sends no signal, and raises exactly when there is a row |
| AllocationChange.AsWrittenLoopDiffers | coldfront/core/allocation/views.py:1511-1522 | on two rows for different attributes, the loop as written writes the first and leaves the second unchanged, where the corrected loop writes the second too and signals both |
| AllocationChange.SaveAttributeValues | coldfront/core/allocation/views.py:1515 | the attributes are stored; the change requests keep referring to existing attributes |
| AllocationChange.SaveAllocations | coldfront/core/allocation/views.py:1507 | allocations that keep their keys and projects keep the store consistent |
| AllocationChange.SaveChangeRequest | coldfront/core/allocation/views.py:1509 | the change request is stored; the store stays consistent |
| AllocationChange.Emit | coldfront/core/allocation/views.py:1516-1547 | the events are appended in order |
| AllocationChange.SavedPhaseOutcome | coldfront/core/allocation/views.py:1472-1522 | the formset refuses iff it is invalid; an update then always succeeds; an approval raises a TypeError iff it extends an allocation without an end date, and otherwise raises in the loop iff the request has attribute rows; the change check never refuses |
| AllocationChange.PostOutcomeRules | coldfront/core/allocation/views.py:1431-1547 | only a superuser's well-formed post on an existing request changes anything; a denial succeeds iff its form is valid; only an approval crashes; a request past the formset lists one value per row; an approval succeeds only on a request without rows |
| AllocationChange.ChangeDetailPost | coldfront/core/allocation/views.py:1431-1547 | the outcome is PostOutcome of the state before; refusals change nothing; a denial saves the form with status Denied and mails the customer; an update saves the notes only, or the form and the formset; a crashing approval leaves the saved request; any other approval leaves ApprovalSavedAsWritten |
| AllocationChange.UpdateOrApprove | coldfront/core/allocation/views.py:1472-1547 | the outcome is SavedPhaseOutcome; an invalid formset changes nothing; an update of a non-Pending request saves only its notes, otherwise the form and the formset; an approval that crashes at the end date leaves the saved request, and any other leaves ApprovalSavedAsWritten |
| AllocationChange.UpdateChange | coldfront/core/allocation/views.py:1483-1496 | a non-Pending request saves only its notes; otherwise the form and the formset are saved |
| AllocationChange.ApproveChange | coldfront/core/allocation/views.py:1491-1547 | the form and the formset are saved; a TypeError iff a positive extension meets an allocation without an end date, with nothing else written; otherwise ApprovalSavedAsWritten, and the loop raises iff the request has rows |
| AllocationChange.ApproveSaved | coldfront/core/allocation/views.py:1498-1547 | the request is Approved and the end date moved; only the first row's attribute takes its value and the loop raises iff there is a row; the approval signal and the e-mail are sent only when there is none |
| AllocationChange.Commit | coldfront/core/allocation/views.py:1498-1547 | the request, the allocations and the attributes are stored, then the events are appended |
| AllocationChange.ApproveSavedCorrected | coldfront/core/allocation/views.py:1498-1547 | with the corrected loop the request is Approved, the end date moved, every row's attribute takes its value, and the attribute signals, the approval signal and the e-mail follow in order |
| AllocationChange.ApprovalAgreesWithoutRows | coldfront/core/allocation/views.py:1498-1547 | without attribute rows the approval as written and the corrected one leave the same state |
| AllocationChange.ApprovalMails | coldfront/core/allocation/views.py:1534-1545 | the approval signal, then the customer e-mail "Allocation Change Approved" |
| AllocationChange.DeniedRequest | coldfront/core/allocation/views.py:1448-1452 | status Denied, with the allocation, justification and rows kept and the form's notes; a non-Pending request keeps its extension |
| AllocationChange.PostOutcome | coldfront/core/allocation/views.py:1431-1473 | a 404 iff the request does not exist; a refusal iff the requester is no superuser; a bad request iff the action is unknown; an invalid form iff the form fails, in that order |
| ProjectViews.PiOrManagerTest | coldfront/core/project/views/project_archive_project_view.py:27-30 | a missing project is a 404; otherwise the test passes iff user_is_pi_or_manager |
| ProjectViews.MembershipGate | coldfront/core/project/views/project_remove_users_view.py:27-33 | a missing project is a 404, then an archived one is refused, and only then does the permission test run |
| ProjectViews.MembershipGateOrder | coldfront/core/project/views/project_add_users_view.py:44-50 | not even a superuser passes on an archived project, and a refused user sees the refusal only on a live project |
| ProjectViews.ExpiredOnArchive | coldfront/core/project/views/project_archive_project_view.py:48-54 | the allocations keep their keys, projects and resources, and no allocation of the project stays Active |
| ProjectViews.ExpiredOnArchiveRules | coldfront/core/project/views/project_archive_project_view.py:48-54 | every Active allocation of the project becomes Expired with end date now, every other allocation is kept as it was, and a second archive changes nothing |
| ProjectViews.ExpireActiveAllocations | coldfront/core/project/views/project_archive_project_view.py:48-54 | the loop gives ExpiredOnArchive |
| ProjectViews.ArchiveProjectPost | coldfront/core/project/views/project_archive_project_view.py:38-55 | the project becomes Archived, project_archive is sent once, and the Active allocations expire; nothing else changes |
| ProjectViews.UpdatedMember | coldfront/core/project/views/project_user_detail_view.py:69-75 | a Manager always gets notifications, any other role the form's choice; user and status are kept |
| ProjectViews.UserDetailDecision | coldfront/core/project/views/project_user_detail_view.py:44-82 | 404, refusal, an archived project, the PI's own membership, another project's membership or an invalid form each change nothing; otherwise the membership is updated |
| ProjectViews.ProjectUserDetailPost | coldfront/core/project/views/project_user_detail_view.py:44-82 | the outcome is UserDetailDecision; only an update stores anything, and only that one membership |
| ProjectViews.NotificationDecision | coldfront/core/project/views/project_update_email_notification_view.py:14-35 | no POST gives 400; a missing membership a 404; a requester neither PI, manager nor its own user a 403; "true" and "false" set the flag with 200; anything else 400 |
| ProjectViews.NotificationAllowed | coldfront/core/project/views/project_update_email_notification_view.py:20-31 | an allowed requester toggles exactly as asked, and any other value leaves the flag alone |
| ProjectViews.UpdateEmailNotification | coldfront/core/project/views/project_update_email_notification_view.py:14-35 | the response is NotificationDecision's; only that membership's flag changes, and only when it is written |
| ProjectViews.UsersToRemove | coldfront/core/project/views/project_remove_users_view.py:35-46 | the listed users other than the requester and the PI |
| ProjectViews.UsersToRemoveKeepsOrder | coldfront/core/project/views/project_remove_users_view.py:35-46 | the candidates keep the query's order |
| ProjectViews.UsersToRemoveMembers | coldfront/core/project/views/project_remove_users_view.py:35-46 | over the Active members, the candidates are the Active members other than the requester and the PI |
| ProjectViews.RemovedUsersMessage | coldfront/core/project/views/project_remove_users_view.py:83-86 | "Removed 1 user from project." for one, "Removed N users from project." otherwise |
| ProjectViews.RemovedUsers | coldfront/core/project/views/project_remove_users_view.py:72-81 | only removable users are removed; RemovedUsersMeaning says which |
| ProjectViews.RemovedUsersMeaning | coldfront/core/project/views/project_remove_users_view.py:72-81 | a user is removed exactly when a selected form names them and they were removable before; each counts once |
| ProjectViews.RemoveOne | coldfront/core/project/views/project_remove_users_view.py:76-81 | remove_user_from_project removes the user iff they were removable before the loop and are not removed yet |
| ProjectViews.RemoveSelected | coldfront/core/project/views/project_remove_users_view.py:72-81 | the count is the number of RemovedUsers; exactly their memberships become Removed, with their allocation rows |
| ProjectViews.RemoveUsersPost | coldfront/core/project/views/project_remove_users_view.py:63-91 | an invalid formset removes nobody; otherwise the RemovedUsers leave the project and the message reports their number |
| ProjectViews.AllocationsAddedPointwise | coldfront/core/project/views/project_add_users_view.py:89-103 | each row of the user in a visited allocation ends with the status decided from the table before the loop; no other row is added or changed |
| ProjectViews.AllocationsAdded | coldfront/core/project/views/project_add_users_view.py:89-103 | no row is dropped, and rows of other users are unchanged |
| ProjectViews.AllocationSignalsActivate | coldfront/core/project/views/project_add_users_view.py:95-103 | at most one signal per visited allocation, each an activation of that user |
| ProjectViews.AddToOneAllocation | coldfront/core/project/views/project_add_users_view.py:95-103 | add_user_to_allocation with the EULA status of the moment |
| ProjectViews.AddUserToAllocations | coldfront/core/project/views/project_add_users_view.py:89-103 | the loop leaves AllocationsAdded and appends AllocationSignals |
| ProjectViews.SelectedCount | coldfront/core/project/views/project_add_users_view.py:67-87 | the number of selected forms, a user selected twice counted twice |
| ProjectViews.UserAdded | coldfront/core/project/views/project_add_users_view.py:77-103 | an unselected form changes nothing; a selected one makes the user an Active member with its role, adds only that membership key and first sends the project activation; the log and the allocation rows only grow |
| ProjectViews.UsersAdded | coldfront/core/project/views/project_add_users_view.py:73-105 | the log, the memberships and the allocation rows only grow, with at least one event per selected form |
| ProjectViews.UsersAddedMembers | coldfront/core/project/views/project_add_users_view.py:77-87 | every selected user is an Active member with the role of their last selected form; no other membership changes |
| ProjectViews.UsersAddedAllocations | coldfront/core/project/views/project_add_users_view.py:89-103 | each row of a selected user in a selected allocation ends with the status decided from the table before the post; no other row changes |
| ProjectViews.AgainSameStatus | coldfront/core/project/views/project_add_users_view.py:95-99 | deciding on an untouched row, or a row already holding the decision, gives the same status |
| ProjectViews.AddSelected | coldfront/core/project/views/project_add_users_view.py:73-105 | the count is SelectedCount, and the tables become UsersAdded of the tables before |
| ProjectViews.SelectedAllocations | coldfront/core/project/views/project_add_users_view.py:70-72 | the existing allocations whose keys were selected |
| ProjectViews.AddUsersPost | coldfront/core/project/views/project_add_users_view.py:52-115 | nothing happens unless both formsets are valid; then the selected users join with their roles and the selected allocations, and the message reports the count |

## Left out

- ORM queries, template rendering, messages, redirects and HTTP response objects are not modelled. A view's response is a datatype, and its messages are strings where the rules concern them.
- Signals and e-mails are not sent; each is an entry of the event log. E-mail content and domain URLs are not modelled.
- The clock and `relativedelta` are left out: "now" is a day-number parameter, and an extension adds days.
- Query orders (`order_by("user__username")`, allocation queries) are parameters. A method that loops over a query gets the order as a sequence that enumerates the set the query filters.
- `get_or_create_local_user_from_form` is not modelled: the add-users forms name users already in the store.
- The form classes are not modelled as such (ProjectRemoveUserForm, ProjectUserUpdateForm, the formsets). Their cleaned data are inputs, and an invalid form or formset is `None`.
- `User.objects.get` raising DoesNotExist is not modelled: forms name existing users.
- Model methods (`has_perm`, `get_eula`, `expires_in`, `activate_user`, `add_user`, `remove_user`) are inputs. Examples are `canViewAll`, `hasEula` and `expiresIn`, and an activation event.
- The renewal review's effects on membership are not modelled: `AllocationRenewView.formset_valid` hands them to model methods, and the model returns each review's decision.
- `AllocationUsersAddView.formset_valid` calls `allocation.add_user`, which is not shown. The model keeps its gate and candidate set.
- Attribute type validation (`allocation_attribute.clean`) is not modelled. `AllocationForm.clean`'s account-name rule is a predicate over the settings, and creating the account attribute is left out.
- Gauge data, `float()` conversions and pagination are not modelled (floating point and a library).
- Integer widths are not modelled: keys and day counts are unbounded.
- `CombinedUserSearch` is an input: the search result the post-processing receives.
- ProjectViews.RemoveSelected: the event log is stated only as an extension of the log before, and the signals' exact order is not stated. UserManagement.RemoveUserFromProject states that order for one user.
- ProjectViews.RemoveUsersPost: the same weaker statement of the event log as RemoveSelected.
- AllocationChange.AttributeSignals: its own contract states only the number of signals. The signals row by row are in AttributeSignalsEach.
- Text.LowerChar: maps ASCII letters only. Python's `str.lower()` also maps non-ASCII capitals, which are left alone here.
- Text.UpperChar: maps ASCII letters only. Python's `str.upper()` also maps non-ASCII letters, and can change the length ('ß' becomes "SS"), which is not modelled.
- Text.Lower: inherits LowerChar's ASCII-only mapping, so it states less than `str.lower()` does for non-ASCII text.
- Text.Upper: inherits UpperChar's ASCII-only mapping, and always keeps the length, which `str.upper()` does not for every non-ASCII letter.
- UserManagement.AddUserToAllocation: `activated` is a ghost out-parameter. The signal it controls is stated on the event log.

## Findings

| source | as written | input that shows it | evidently intended | confidence | as-written member | corrected member |
|---|---|---|---|---|---|---|
| coldfront/core/allocation/views.py:139 | the EULA reminder compares the user's status with "PendingEula" | an Active allocation with an EULA, viewed by a user whose row is PendingEULA: no reminder | compare with "PendingEULA", the name the status is stored under | not executed | AllocationDetail.EulaReminderAsWritten | AllocationDetail.EulaReminder |
| coldfront/core/allocation/views.py:1511-1522 | the approval loop reads `allocation` from the attribute form's cleaned data, which has no such field, and calls `.pk` on None | approving a request with two attribute changes: the first value is saved, then the loop raises before any signal, and the second value, the approval signal and the e-mail are lost | take the allocation from the change request | not executed | AllocationChange.AsWrittenLoopDiffers | AllocationChange.ApproveSavedCorrected |
| coldfront/core/allocation/views.py:1478 | `formset and formset.is_valid()` is true for every valid formset, since a formset object is always truthy | a request whose attribute changes were all deleted, posted with an unchanged extension: accepted | refuse when nothing changed: test that the formset has forms | not executed | AllocationChange.ChangeRequestedAsWrittenAlways | AllocationChange.ChangeRequestedDiffers |
| coldfront/core/allocation/forms.py:37-38 | INVOICE_DEFAULT_STATUS falls back to "Pending Payment" | invoicing enabled, the setting unset, a resource that requires payment: the status lookup fails | "Payment Pending", the status counted everywhere else | not executed | AllocationForms.AllocationFormClean | AllocationForms.AllocationFormCleanCorrected |
