/**
 * The status transitions of an allocation's detail page and its EULA page
 * (coldfront/core/allocation/views.py, AllocationDetailView and
 * AllocationEULAView).
 */
module AllocationDetail {
  import opened Wrappers
  import opened Choices
  import opened Store
  import opened AllocationForms
  import opened UserManagement

  // ---------------------------------------------------------------- detail view

  const DetailSender: Sender := Some("AllocationDetailView")

  /** The fields of the posted AllocationUpdateForm that the model follows. */
  datatype PostedUpdate = PostedUpdate(status: AllocationStatus, startDate: Option<Day>, endDate: Option<Day>, isLocked: bool)

  const DetailActions: seq<string> := ["update", "approve", "auto-approve", "deny"]

  predicate IsApprove(action: string) { action == "approve" || action == "auto-approve" }

  /** The status the pre-processing writes into the form data: approve forces Active, deny Denied, update keeps the posted one. */
  function ForcedStatus(action: string, posted: AllocationStatus): (r: AllocationStatus)
    ensures IsApprove(action) ==> r == AllocationStatus.Active
    ensures action == "deny" ==> r == AllocationStatus.Denied
    ensures action == "update" ==> r == posted
  {
    if IsApprove(action) then AllocationStatus.Active
    else if action == "deny" then AllocationStatus.Denied
    else posted
  }

  /**
   * The form data after pre-processing when the status changes: becoming
   * Active fills in the start date if the allocation has none and the end
   * date when approving or when none was posted; becoming Denied, New or
   * Revoked clears both dates.
   */
  function TransitionData(action: string, current: Allocation, posted: PostedUpdate, now: Day, length: int): (d: PostedUpdate)
    ensures d.status == ForcedStatus(action, posted.status)
    ensures d.isLocked == posted.isLocked
    ensures d.status == AllocationStatus.Active ==>
      && d.startDate == (if current.startDate.None? then Some(now) else posted.startDate)
      && d.endDate == (if IsApprove(action) || posted.endDate.None? then Some(now + length) else posted.endDate)
    ensures d.status in {AllocationStatus.Denied, AllocationStatus.New, AllocationStatus.Revoked} ==>
      d.startDate.None? && d.endDate.None?
    ensures d.status !in {AllocationStatus.Active, AllocationStatus.Denied, AllocationStatus.New, AllocationStatus.Revoked} ==>
      d.startDate == posted.startDate && d.endDate == posted.endDate
  {
    var s := ForcedStatus(action, posted.status);
    if s.Name() == "Active" then
      posted.(status := s,
              startDate := if current.startDate.None? then Some(now) else posted.startDate,
              endDate := if IsApprove(action) || posted.endDate.None? then Some(now + length) else posted.endDate)
    else if s.Name() in ["Denied", "New", "Revoked"] then
      posted.(status := s, startDate := None, endDate := None)
    else posted.(status := s)
  }

  /** The allocation after the form saves `d` over it. */
  function Saved(current: Allocation, d: PostedUpdate): Allocation
  {
    current.(status := d.status, startDate := d.startDate, endDate := d.endDate, isLocked := d.isLocked)
  }

  /** The allocation-user statuses left out of the per-user signals for a new status. */
  function SignalExcluded(s: AllocationStatus): set<AllocationUserStatus>
  {
    if s == AllocationStatus.Active then
      {AllocationUserStatus.Removed, AllocationUserStatus.Error, AllocationUserStatus.DeclinedEULA, AllocationUserStatus.PendingEULA}
    else {AllocationUserStatus.Removed, AllocationUserStatus.Error}
  }

  predicate SignalsUsers(s: AllocationStatus)
  {
    s == AllocationStatus.Active || s == AllocationStatus.Denied || s == AllocationStatus.Revoked
  }

  /** The users of `a` the post-save loop signals when the allocation takes status `s`. */
  function SignalledUsers(au: map<AllocationUserKey, AllocationUserStatus>, a: AllocationId, s: AllocationStatus): (S: set<UserId>)
    ensures forall u :: u in S <==> SignalsUsers(s) && (a, u) in au && au[(a, u)] !in SignalExcluded(s)
  {
    assert forall u :: (a, u) in au ==> (a, u).1 == u;
    if SignalsUsers(s) then set k | k in au && k.0 == a && au[k] !in SignalExcluded(s) :: k.1 else {}
  }

  /**
   * Activation reaches exactly the Active users; removal reaches exactly
   * the users still Active or waiting on or having declined the EULA.
   */
  lemma SignalledUsersExactly(au: map<AllocationUserKey, AllocationUserStatus>, a: AllocationId, u: UserId)
    ensures u in SignalledUsers(au, a, AllocationStatus.Active) <==>
      (a, u) in au && au[(a, u)] == AllocationUserStatus.Active
    ensures u in SignalledUsers(au, a, AllocationStatus.Denied) <==>
      (a, u) in au && au[(a, u)] in {AllocationUserStatus.Active, AllocationUserStatus.PendingEULA, AllocationUserStatus.DeclinedEULA}
    ensures SignalledUsers(au, a, AllocationStatus.Revoked) == SignalledUsers(au, a, AllocationStatus.Denied)
    ensures forall s :: !SignalsUsers(s) ==> SignalledUsers(au, a, s) == {}
  {
    if (a, u) in au {
      assert (a, u).1 == u;
    }
  }

  function UserSignal(s: AllocationStatus, key: AllocationUserKey): Event
  {
    if s == AllocationStatus.Active then AllocationActivateUser(DetailSender, key) else AllocationRemoveUser(DetailSender, key)
  }

  /** The per-user signals, one for each user of `order`, in that order. */
  function UserSignals(s: AllocationStatus, a: AllocationId, order: seq<UserId>): (r: seq<Event>)
    ensures |r| == |order|
    ensures forall i :: 0 <= i < |order| ==> r[i] == UserSignal(s, (a, order[i]))
  {
    if order == [] then [] else UserSignals(s, a, order[..|order| - 1]) + [UserSignal(s, (a, order[|order| - 1]))]
  }

  /** The allocation signal sent after a status change to `s`: activate for Active, disable for Denied or Revoked. */
  function AllocationSignal(s: AllocationStatus, a: AllocationId): Event
  {
    if s == AllocationStatus.Active then AllocationActivate(DetailSender, a) else AllocationDisable(DetailSender, a)
  }

  function EmailSubject(s: AllocationStatus): string
  {
    match s
    case Active => "Allocation Activated"
    case Denied => "Allocation Denied"
    case _ => "Allocation Revoked"
  }

  /** What is sent after a successful save that changed the status to `s`. */
  function PostSaveEvents(s: AllocationStatus, a: AllocationId, order: seq<UserId>): (r: seq<Event>)
    ensures !SignalsUsers(s) ==> r == []
    ensures SignalsUsers(s) ==>
      && |r| == |order| + 2
      && r[0] == AllocationSignal(s, a)
      && (forall i :: 0 <= i < |order| ==> r[i + 1] == UserSignal(s, (a, order[i])))
      && r[|r| - 1] == CustomerEmail(a, EmailSubject(s))
  {
    if SignalsUsers(s) then [AllocationSignal(s, a)] + UserSignals(s, a, order) + [CustomerEmail(a, EmailSubject(s))]
    else []
  }

  /**
   * Approving a request that has no start date always passes the date
   * check, for any non-negative default length: the dates become
   * `now` and `now + length`.
   */
  lemma ApprovalPassesDateCheck(action: string, current: Allocation, posted: PostedUpdate, now: Day, length: int)
    requires IsApprove(action) && current.startDate.None? && length >= 0
    ensures var d := TransitionData(action, current, posted, now, length);
      d.startDate == Some(now) && d.endDate == Some(now + length) && UpdateFormClean(d.startDate, d.endDate)
  {
  }

  /** The saved allocation always has ordered dates. */
  lemma SavedDatesOrdered(current: Allocation, d: PostedUpdate)
    requires UpdateFormClean(d.startDate, d.endDate)
    ensures DatesOrdered(Saved(current, d))
  {
  }

  datatype DetailOutcome =
    | DetailNotPermitted
    | DetailBadRequest
    /** The status did not change: the original posted form was (or was not) saved. */
    | DetailUpdated(saved: bool)
    /** The status changed: the pre-processed form was (or was not) saved. */
    | DetailTransition(saved: bool)

  /**
   * AllocationDetailView.post on allocation `a` by `requester`, with the
   * posted form `posted`, the clock `now` and ALLOCATION_DEFAULT_ALLOCATION_LENGTH
   * `length`. When the forced status equals the current one the ORIGINAL
   * posted data is saved, status included, and nothing is sent.
   */
  method DetailPost(db: Db, a: AllocationId, requester: UserId, action: string, posted: PostedUpdate, now: Day, length: int)
    returns (outcome: DetailOutcome, ghost order: seq<UserId>)
    requires db.Valid() && a in db.allocations && requester in db.users
    modifies db`allocations, db`events
    ensures db.Valid()
    ensures !db.users[requester].isSuperuser ==>
      outcome == DetailNotPermitted && db.allocations == old(db.allocations) && db.events == old(db.events)
    ensures db.users[requester].isSuperuser && action !in DetailActions ==>
      outcome == DetailBadRequest && db.allocations == old(db.allocations) && db.events == old(db.events)
    ensures db.users[requester].isSuperuser && action in DetailActions
            && ForcedStatus(action, posted.status) == old(db.allocations)[a].status ==>
      && outcome == DetailUpdated(UpdateFormClean(posted.startDate, posted.endDate))
      && db.allocations == (if outcome.saved then old(db.allocations)[a := Saved(old(db.allocations)[a], posted)]
                            else old(db.allocations))
      && db.events == old(db.events)
    ensures db.users[requester].isSuperuser && action in DetailActions
            && ForcedStatus(action, posted.status) != old(db.allocations)[a].status ==>
      var d := TransitionData(action, old(db.allocations)[a], posted, now, length);
      && outcome == DetailTransition(UpdateFormClean(d.startDate, d.endDate))
      && db.allocations == (if outcome.saved then old(db.allocations)[a := Saved(old(db.allocations)[a], d)]
                            else old(db.allocations))
      && (outcome.saved ==> Enumerates(order, SignalledUsers(db.allocationUsers, a, d.status))
                            && db.events == old(db.events) + PostSaveEvents(d.status, a, order))
      && (!outcome.saved ==> db.events == old(db.events))
  {
    order := [];
    if !db.users[requester].isSuperuser {
      return DetailNotPermitted, order;
    }
    if action !in DetailActions {
      return DetailBadRequest, order;
    }
    var current := db.allocations[a];
    var newStatus := ForcedStatus(action, posted.status);
    if newStatus == current.status {
      var ok := UpdateFormClean(posted.startDate, posted.endDate);
      if ok {
        db.allocations := db.allocations[a := Saved(current, posted)];
      }
      return DetailUpdated(ok), order;
    }
    var d := TransitionData(action, current, posted, now, length);
    var ok := UpdateFormClean(d.startDate, d.endDate);
    if !ok {
      return DetailTransition(false), order;
    }
    db.allocations := db.allocations[a := Saved(current, d)];
    order := SendPostSave(db, a, d.status);
    outcome := DetailTransition(true);
  }

  /** The signals and e-mail sent after a successful save that changed the status to `s`. */
  method SendPostSave(db: Db, a: AllocationId, s: AllocationStatus) returns (ghost order: seq<UserId>)
    requires db.Valid()
    modifies db`events
    ensures db.Valid()
    ensures Enumerates(order, SignalledUsers(db.allocationUsers, a, s))
    ensures db.events == old(db.events) + PostSaveEvents(s, a, order)
  {
    order := [];
    if !SignalsUsers(s) {
      return;
    }
    var signals;
    signals, order := UserSignalLoop(a, s, SignalledUsers(db.allocationUsers, a, s));
    var sent := [AllocationSignal(s, a)] + signals + [CustomerEmail(a, EmailSubject(s))];
    assert sent == PostSaveEvents(s, a, order);
    db.events := db.events + sent;
  }

  /** The loop over the selected allocation users: the signals it sends, one per user, in visiting order. */
  method UserSignalLoop(a: AllocationId, s: AllocationStatus, S: set<UserId>) returns (signals: seq<Event>, ghost order: seq<UserId>)
    ensures Enumerates(order, S)
    ensures signals == UserSignals(s, a, order)
  {
    signals, order := [], [];
    var todo := S;
    while todo != {}
      invariant todo <= S
      invariant Enumerates(order, S - todo)
      invariant signals == UserSignals(s, a, order)
      decreases todo
    {
      var u :| u in todo;
      EnumeratesAppend(order, S - todo, u);
      assert (order + [u])[..|order + [u]| - 1] == order;
      signals := signals + [UserSignal(s, (a, u))];
      assert S - (todo - {u}) == (S - todo) + {u};
      todo := todo - {u};
      order := order + [u];
    }
  }

  // ---------------------------------------------------------------- EULA reminder on the detail page

  /** Whether the detail page's context finds the requester among the allocation's users not Removed. */
  predicate ListedUser(au: map<AllocationUserKey, AllocationUserStatus>, a: AllocationId, u: UserId)
  {
    (a, u) in au && au[(a, u)] != AllocationUserStatus.Removed
  }

  /** The condition of the EULA reminder message, as written: the user status is compared with "PendingEula", so it never holds. */
  predicate EulaReminderAsWritten(eulaEnabled: bool, allocation: Allocation, au: map<AllocationUserKey, AllocationUserStatus>,
                                  a: AllocationId, u: UserId): (r: bool)
    ensures !r
  {
    eulaEnabled && ListedUser(au, a, u) && allocation.status.Name() == "Active" && au[(a, u)].Name() == "PendingEula"
  }

  /**
   * The condition with the status name the EULA status is stored under: it
   * holds exactly for a user of an Active allocation who has yet to accept
   * its EULA.
   */
  predicate EulaReminder(eulaEnabled: bool, allocation: Allocation, au: map<AllocationUserKey, AllocationUserStatus>,
                         a: AllocationId, u: UserId): (r: bool)
    ensures r <==> eulaEnabled && allocation.status == AllocationStatus.Active
                   && (a, u) in au && au[(a, u)] == AllocationUserStatus.PendingEULA
  {
    eulaEnabled && ListedUser(au, a, u) && allocation.status.Name() == "Active" && au[(a, u)].Name() == "PendingEULA"
  }

  // ---------------------------------------------------------------- EULA view

  /** EMAIL_ALLOCATION_EULA_CONFIRMATIONS and EMAIL_ALLOCATION_EULA_IGNORE_OPT_OUT. */
  datatype EulaMailSettings = EulaMailSettings(confirmations: bool, ignoreOptOut: bool)

  datatype EulaOutcome =
    | EulaNotFound404
    /** Redirect back to the EULA page; the user was acted on or was not eligible. */
    | EulaRedirect
    | EulaBadRequest
    /** The project-user lookup for the confirmation e-mail raises DoesNotExist before anything is saved. */
    | EulaProjectUserMissing

  /** The user may answer the EULA: a row of `a` that is neither Removed nor DeclinedEULA. */
  predicate MayAnswerEula(au: map<AllocationUserKey, AllocationUserStatus>, a: AllocationId, u: UserId): (r: bool)
    ensures r <==> (a, u) in au
                   && au[(a, u)] in {AllocationUserStatus.Active, AllocationUserStatus.PendingEULA, AllocationUserStatus.Error}
  {
    (a, u) in au && au[(a, u)] != AllocationUserStatus.Removed && au[(a, u)] != AllocationUserStatus.DeclinedEULA
  }

  /** Whether a confirmation e-mail goes out, given the project-user row (which must exist when confirmations are on). */
  predicate SendsEulaMail(mail: EulaMailSettings, pu: map<ProjectUserKey, ProjectUser>, key: ProjectUserKey)
  {
    mail.confirmations && (mail.ignoreOptOut || (key in pu && pu[key].enableNotifications))
  }

  /**
   * AllocationEULAView.post by user `u` on allocation `a` with the posted
   * `action`. Accepting makes the row Active (after the optional
   * confirmation e-mail and the call to activate_user, recorded as an
   * event); declining makes it DeclinedEULA; any other action is a bad
   * request. Only allocation-user rows change.
   */
  method EulaPost(db: Db, a: AllocationId, u: UserId, action: Option<string>, mail: EulaMailSettings)
    returns (outcome: EulaOutcome)
    requires db.Valid()
    modifies db`allocationUsers, db`events
    ensures db.Valid()
    ensures a !in old(db.allocations) ==> outcome == EulaNotFound404
    ensures outcome != EulaRedirect || (a in db.allocations && !MayAnswerEula(old(db.allocationUsers), a, u))
      ==> db.allocationUsers == old(db.allocationUsers) && db.events == old(db.events)
    ensures a in db.allocations && !MayAnswerEula(old(db.allocationUsers), a, u) ==> outcome == EulaRedirect
    ensures a in db.allocations && MayAnswerEula(old(db.allocationUsers), a, u) ==>
      var key := (db.allocations[a].project, u);
      var missing := mail.confirmations && key !in db.projectUsers;
      && (action.None? || action.value !in ["accepted_eula", "declined_eula"] ==> outcome == EulaBadRequest)
      && (action == Some("accepted_eula") ==>
            && outcome == (if missing then EulaProjectUserMissing else EulaRedirect)
            && (!missing ==>
                  && db.allocationUsers == old(db.allocationUsers)[(a, u) := AllocationUserStatus.Active]
                  && db.events == old(db.events)
                     + (if SendsEulaMail(mail, db.projectUsers, key) then [EulaEmail((a, u), "EULA accepted")] else [])
                     + [AllocationUserActivated((a, u))]))
      && (action == Some("declined_eula") ==>
            && outcome == (if missing then EulaProjectUserMissing else EulaRedirect)
            && (!missing ==>
                  && db.allocationUsers == old(db.allocationUsers)[(a, u) := AllocationUserStatus.DeclinedEULA]
                  && db.events == old(db.events)
                     + (if SendsEulaMail(mail, db.projectUsers, key) then [EulaEmail((a, u), "EULA declined")] else [])))
  {
    if a !in db.allocations {
      return EulaNotFound404;
    }
    if !MayAnswerEula(db.allocationUsers, a, u) {
      return EulaRedirect;
    }
    if action.None? || action.value !in ["accepted_eula", "declined_eula"] {
      return EulaBadRequest;
    }
    var accepted := action.value == "accepted_eula";
    var key := (db.allocations[a].project, u);
    if mail.confirmations && key !in db.projectUsers {
      return EulaProjectUserMissing;
    }
    if mail.confirmations && (mail.ignoreOptOut || db.projectUsers[key].enableNotifications) {
      db.events := db.events + [EulaEmail((a, u), if accepted then "EULA accepted" else "EULA declined")];
    }
    if accepted {
      db.events := db.events + [AllocationUserActivated((a, u))];
    }
    db.allocationUsers := db.allocationUsers[(a, u) :=
      if accepted then AllocationUserStatus.Active else AllocationUserStatus.DeclinedEULA];
    outcome := EulaRedirect;
  }

  /**
   * Answering is final: after declining, the user may no longer answer;
   * after accepting, the user is an Active user who still may.
   */
  lemma EulaAnswerFinal(au: map<AllocationUserKey, AllocationUserStatus>, a: AllocationId, u: UserId)
    ensures !MayAnswerEula(au[(a, u) := AllocationUserStatus.DeclinedEULA], a, u)
    ensures MayAnswerEula(au[(a, u) := AllocationUserStatus.Active], a, u)
    ensures IsActiveIn(au[(a, u) := AllocationUserStatus.Active], a, u)
  {
  }
}
