/**
 * Requesting an allocation, adding and removing its users, renewing it and
 * asking to change it: the gates each view's `dispatch` applies, the user
 * sets they work on, and the state their success paths write
 * (coldfront/core/allocation/views.py: AllocationCreateView,
 * AllocationUsersAddView, AllocationUsersRemoveView, AllocationRenewView,
 * AllocationChangeView).
 */
module AllocationRequests {
  import opened Wrappers
  import opened Text
  import opened Choices
  import opened Store
  import opened UserManagement
  import opened AllocationForms

  // ---------------------------------------------------------------- create view

  datatype CreateGate = CreateNeedsReview | CreateArchivedProject | CreateProceeds

  /** AllocationCreateView.dispatch on an existing project: a review pending refuses first, then an archived status. */
  function CreateDispatch(project: Project): (r: CreateGate)
    ensures r == CreateProceeds <==> !project.needsReview && project.status in {ProjectStatus.Active, ProjectStatus.New}
    ensures r == CreateArchivedProject <==> !project.needsReview && project.status == ProjectStatus.Archived
  {
    if project.needsReview then CreateNeedsReview
    else if project.status.Name() !in ["Active", "New"] then CreateArchivedProject
    else CreateProceeds
  }

  const CreateSender: Sender := Some("AllocationCreateView")

  /**
   * The status of a user's first row in a new allocation: PendingEULA when
   * EULAs are enabled and the user is not the requester (compared by
   * username), else Active.
   */
  function CreatedUserStatus(users: map<UserId, UserRecord>, eulaEnabled: bool, requester: UserId, u: UserId): (r: AllocationUserStatus)
    requires u in users && requester in users
    ensures r == AllocationUserStatus.Active || r == AllocationUserStatus.PendingEULA
    ensures u == requester ==> r == AllocationUserStatus.Active
    ensures !eulaEnabled ==> r == AllocationUserStatus.Active
    ensures r == AllocationUserStatus.PendingEULA <==> eulaEnabled && users[u].username != users[requester].username
  {
    if eulaEnabled && users[u].username != users[requester].username then AllocationUserStatus.PendingEULA
    else AllocationUserStatus.Active
  }

  /** The users of a new allocation: those selected on the form, and the PI, each once. */
  function CreatedUsers(selected: seq<UserId>, pi: UserId): (S: set<UserId>)
    ensures pi in S
    ensures forall u :: u in S <==> u in selected || u == pi
  {
    (set u | u in selected) + {pi}
  }

  /**
   * AllocationCreateView.form_valid for a cleaned form: allocation `a` is
   * created for project `p` with the cleaned status and the resource with
   * its linked resources, a row for each of CreatedUsers, the admin e-mail
   * and the allocation_new signal.
   */
  method CreateFormValid(db: Db, a: AllocationId, p: ProjectId, status: AllocationStatus, resources: set<ResourceId>,
                         hasEula: bool, selected: seq<UserId>, requester: UserId, eulaEnabled: bool)
    requires db.Valid() && p in db.projects && a !in db.allocations && requester in db.users
    requires forall i :: 0 <= i < |selected| ==> selected[i] in db.users
    modifies db`allocations, db`allocationUsers, db`events
    ensures db.Valid()
    ensures db.allocations == old(db.allocations)[a := Allocation(p, resources, status, None, None, false, hasEula)]
    ensures var S := CreatedUsers(selected, old(db.projects)[p].pi);
      && (forall k :: k in db.allocationUsers <==> k in old(db.allocationUsers) || (k.0 == a && k.1 in S))
      && (forall k :: k in old(db.allocationUsers) ==> db.allocationUsers[k] == old(db.allocationUsers)[k])
      && (forall u :: u in S ==> db.allocationUsers[(a, u)] == CreatedUserStatus(db.users, eulaEnabled, requester, u))
    ensures db.events == old(db.events) + [AdminEmail(a, "New Allocation Request"), AllocationNew(CreateSender, a)]
  {
    var pi := db.projects[p].pi;
    var S := CreatedUsers(selected, pi);
    var rows := CreateRows(db.allocationUsers, db.users, a, S, eulaEnabled, requester);
    assert forall k :: k in db.allocationUsers ==> k.0 != a;
    SaveCreated(db, a, Allocation(p, resources, status, None, None, false, hasEula), rows);
  }

  /** `form.save()` and the row creation: the new allocation `a` and its user rows, then the admin e-mail and the signal. */
  method SaveCreated(db: Db, a: AllocationId, allocation: Allocation, rows: map<AllocationUserKey, AllocationUserStatus>)
    requires db.Valid() && allocation.project in db.projects
    requires forall k :: k in rows ==> (k.0 in db.allocations || k.0 == a) && k.1 in db.users
    modifies db`allocations, db`allocationUsers, db`events
    ensures db.Valid()
    ensures db.allocations == old(db.allocations)[a := allocation] && db.allocationUsers == rows
    ensures db.events == old(db.events) + [AdminEmail(a, "New Allocation Request"), AllocationNew(CreateSender, a)]
  {
    db.allocations := db.allocations[a := allocation];
    db.allocationUsers := rows;
    db.events := db.events + [AdminEmail(a, "New Allocation Request"), AllocationNew(CreateSender, a)];
  }

  /** The loop creating one row of allocation `a`, with its CreatedUserStatus, for each user of `S`. */
  method CreateRows(au: map<AllocationUserKey, AllocationUserStatus>, users: map<UserId, UserRecord>, a: AllocationId,
                    S: set<UserId>, eulaEnabled: bool, requester: UserId)
    returns (rows: map<AllocationUserKey, AllocationUserStatus>)
    requires requester in users && S <= users.Keys
    ensures forall k :: k in rows <==> k in au || (k.0 == a && k.1 in S)
    ensures forall k :: k in au && k.0 != a ==> rows[k] == au[k]
    ensures forall u :: u in S ==> rows[(a, u)] == CreatedUserStatus(users, eulaEnabled, requester, u)
  {
    rows := au;
    var todo := S;
    while todo != {}
      invariant todo <= S
      invariant forall k :: k in rows <==> k in au || (k.0 == a && k.1 in S - todo)
      invariant forall k :: k in au && k.0 != a ==> rows[k] == au[k]
      invariant forall u :: u in S - todo ==> rows[(a, u)] == CreatedUserStatus(users, eulaEnabled, requester, u)
      decreases todo
    {
      var u :| u in todo;
      rows := rows[(a, u) := CreatedUserStatus(users, eulaEnabled, requester, u)];
      todo := todo - {u};
    }
  }

  // ---------------------------------------------------------------- adding and removing users

  /** The statuses in which users may be added. */
  const AddStatusNames: seq<string> := ["Active", "New", "Renewal Requested", "Payment Pending", "Payment Requested", "Paid"]

  /** The statuses in which users may be removed. */
  const RemoveStatusNames: seq<string> := ["Active", "New", "Renewal Requested"]

  /** AllocationUsersAddView.dispatch: allowed unless locked for a non-superuser or in a status outside the add list. */
  function AddUsersAllowed(allocation: Allocation, requesterIsSuperuser: bool): (ok: bool)
    ensures ok <==> !(allocation.isLocked && !requesterIsSuperuser) && allocation.status.Name() in AddStatusNames
  {
    if allocation.isLocked && !requesterIsSuperuser then false
    else allocation.status.Name() in AddStatusNames
  }

  /** AllocationUsersRemoveView.dispatch: allowed unless locked for a non-superuser or in a status outside the remove list. */
  function RemoveUsersAllowed(allocation: Allocation, requesterIsSuperuser: bool): (ok: bool)
    ensures ok <==> !(allocation.isLocked && !requesterIsSuperuser) && allocation.status.Name() in RemoveStatusNames
  {
    if allocation.isLocked && !requesterIsSuperuser then false
    else allocation.status.Name() in RemoveStatusNames
  }

  /** Wherever users may be removed they may also be added, and the billing statuses allow adding only. */
  lemma RemoveGateWithinAddGate(allocation: Allocation, requesterIsSuperuser: bool)
    ensures RemoveUsersAllowed(allocation, requesterIsSuperuser) ==> AddUsersAllowed(allocation, requesterIsSuperuser)
    ensures AddUsersAllowed(allocation, requesterIsSuperuser) && !RemoveUsersAllowed(allocation, requesterIsSuperuser) ==>
      allocation.status in {AllocationStatus.PaymentPending, AllocationStatus.PaymentRequested, AllocationStatus.Paid}
    ensures allocation.status in {AllocationStatus.Denied, AllocationStatus.Revoked, AllocationStatus.Expired, AllocationStatus.PaymentDeclined} ==>
      !AddUsersAllowed(allocation, requesterIsSuperuser) && !RemoveUsersAllowed(allocation, requesterIsSuperuser)
  {
  }

  /**
   * The users AllocationUsersAddView offers (get_formset_initial): Active
   * members of project `p` who have no row at all in allocation `a`,
   * other than the PI.
   */
  function AddCandidates(pu: map<ProjectUserKey, ProjectUser>, au: map<AllocationUserKey, AllocationUserStatus>,
                         p: ProjectId, a: AllocationId, pi: UserId): (S: set<UserId>)
    ensures forall u :: u in S <==>
      (p, u) in pu && pu[(p, u)].status == ProjectUserStatus.Active && (a, u) !in au && u != pi
  {
    var members := set k | k in pu && k.0 == p && pu[k].status.Name() == "Active" :: k.1;
    var inAllocation := set k | k in au && k.0 == a :: k.1;
    assert forall u :: (p, u) in pu ==> (p, u).1 == u;
    assert forall u :: (a, u) in au ==> (a, u).1 == u;
    members - inAllocation - {pi}
  }

  /** The status the add formset's forms start with. */
  function AddInitialStatus(eulaEnabled: bool): (r: AllocationUserStatus)
    ensures r == AllocationUserStatus.PendingEULA <==> eulaEnabled
    ensures r == AllocationUserStatus.Active <==> !eulaEnabled
  {
    if eulaEnabled then AllocationUserStatus.PendingEULA else AllocationUserStatus.Active
  }

  /**
   * The rows AllocationUsersRemoveView offers (get_formset_queryset): users
   * of `a` not Removed or Error, other than the PI and the requester.
   */
  function RemoveCandidates(au: map<AllocationUserKey, AllocationUserStatus>, a: AllocationId, pi: UserId, requester: UserId): (S: set<UserId>)
    ensures forall u :: u in S <==>
      (a, u) in au && au[(a, u)] !in {AllocationUserStatus.Removed, AllocationUserStatus.Error} && u != pi && u != requester
  {
    assert forall u :: (a, u) in au ==> (a, u).1 == u;
    set k | k in au && k.0 == a && au[k].Name() !in ["Removed", "Error"] && k.1 != pi && k.1 != requester :: k.1
  }

  /** Neither list ever offers the PI, and nobody is offered both for adding and for removal. */
  lemma CandidatesDisjoint(pu: map<ProjectUserKey, ProjectUser>, au: map<AllocationUserKey, AllocationUserStatus>,
                           p: ProjectId, a: AllocationId, pi: UserId, requester: UserId)
    ensures pi !in AddCandidates(pu, au, p, a, pi) && pi !in RemoveCandidates(au, a, pi, requester)
    ensures AddCandidates(pu, au, p, a, pi) * RemoveCandidates(au, a, pi, requester) == {}
  {
  }

  /** `pluralize`: the suffix after a count. */
  function Plural(n: int): string
  {
    if n == 1 then "" else "s"
  }

  const RemoveSender: Sender := Some("AllocationUsersRemoveView")

  /** The remove signal of each saved row, in order. */
  function RemoveSignals(saved: seq<AllocationUserKey>): (r: seq<Event>)
    ensures |r| == |saved|
    ensures forall i :: 0 <= i < |saved| ==> r[i] == AllocationRemoveUser(RemoveSender, saved[i])
  {
    if saved == [] then [] else RemoveSignals(saved[..|saved| - 1]) + [AllocationRemoveUser(RemoveSender, saved[|saved| - 1])]
  }

  /** The success message of the remove view. */
  function RemovedMessage(count: nat): (m: string)
    ensures count == 1 ==> m == "Removed 1 user from allocation."
    ensures count != 1 ==> m == "Removed " + NatToString(count) + " users from allocation."
  {
    "Removed " + NatToString(count) + " user" + Plural(count) + " from allocation."
  }

  /** The rows after the rows `saved` are saved with status Removed, one after the other. */
  function MarkRemoved(au: map<AllocationUserKey, AllocationUserStatus>, saved: seq<AllocationUserKey>): (r: map<AllocationUserKey, AllocationUserStatus>)
    requires forall i :: 0 <= i < |saved| ==> saved[i] in au
    ensures r.Keys == au.Keys
    ensures forall k :: k in r ==> r[k] == if k in saved then AllocationUserStatus.Removed else au[k]
  {
    if saved == [] then au
    else MarkRemoved(au, saved[..|saved| - 1])[saved[|saved| - 1] := AllocationUserStatus.Removed]
  }

  /**
   * AllocationUsersRemoveView.formset_valid: the formset saves the selected
   * rows `saved` with their disabled status field, that is its initial
   * Removed; then one remove signal per saved row is sent, in order, and
   * the message reports how many.
   */
  method RemoveUsersFormsetValid(db: Db, saved: seq<AllocationUserKey>) returns (message: string)
    requires db.Valid()
    requires forall i :: 0 <= i < |saved| ==> saved[i] in db.allocationUsers
    modifies db`allocationUsers, db`events
    ensures db.Valid()
    ensures db.allocationUsers == MarkRemoved(old(db.allocationUsers), saved)
    ensures db.events == old(db.events) + RemoveSignals(saved)
    ensures message == RemovedMessage(|saved|)
  {
    db.allocationUsers := MarkRemoved(db.allocationUsers, saved);
    var signals := RemoveSignalLoop(saved);
    db.events := db.events + signals;
    message := RemovedMessage(|saved|);
  }

  /** The loop over the saved rows, sending allocation_remove_user for each. */
  method RemoveSignalLoop(saved: seq<AllocationUserKey>) returns (signals: seq<Event>)
    ensures signals == RemoveSignals(saved)
  {
    signals := [];
    var i := 0;
    while i < |saved|
      invariant 0 <= i <= |saved|
      invariant signals == RemoveSignals(saved[..i])
    {
      assert saved[..i + 1][..i] == saved[..i];
      signals := signals + [AllocationRemoveUser(RemoveSender, saved[i])];
      i := i + 1;
    }
    assert saved[..|saved|] == saved;
  }

  /** The message is singular exactly when one user was removed. */
  lemma RemovedMessageSingular(count: nat)
    ensures Plural(count) == "" <==> count == 1
    ensures RemovedMessage(count) == "Removed " + NatToString(count) + " user" + (if count == 1 then "" else "s") + " from allocation."
  {
  }

  // ---------------------------------------------------------------- renewal

  datatype RenewGate = RenewalDisabled | RenewWrongStatus | RenewProjectNeedsReview | RenewTooSoon | RenewProceeds

  /**
   * AllocationRenewView.dispatch, in its order: renewal must be enabled,
   * the allocation Active, the project not awaiting review, and
   * the allocation's `expires_in` (days left) at most 60.
   */
  function RenewDispatch(renewalEnabled: bool, allocation: Allocation, project: Project, expiresIn: int): (r: RenewGate)
    ensures r == RenewProceeds <==>
      renewalEnabled && allocation.status == AllocationStatus.Active && !project.needsReview && expiresIn <= 60
    ensures r == RenewTooSoon <==>
      renewalEnabled && allocation.status == AllocationStatus.Active && !project.needsReview && expiresIn > 60
  {
    if !renewalEnabled then RenewalDisabled
    else if allocation.status.Name() !in ["Active"] then RenewWrongStatus
    else if project.needsReview then RenewProjectNeedsReview
    else if expiresIn > 60 then RenewTooSoon
    else RenewProceeds
  }

  /** The rows the renewal form reviews: users of `a` not Removed, other than the PI and the requester. */
  function RenewReviewUsers(au: map<AllocationUserKey, AllocationUserStatus>, a: AllocationId, pi: UserId, requester: UserId): (S: set<UserId>)
    ensures forall u :: u in S <==> (a, u) in au && au[(a, u)] != AllocationUserStatus.Removed && u != pi && u != requester
  {
    assert forall u :: (a, u) in au ==> (a, u).1 == u;
    set k | k in au && k.0 == a && au[k].Name() !in ["Removed"] && k.1 != pi && k.1 != requester :: k.1
  }

  /**
   * AllocationRenewView.formset_valid on allocation `a`: after the review
   * forms are saved (each one's decision is returned), the allocation
   * becomes Renewal Requested and the admins are e-mailed.
   */
  method RenewFormsetValid(db: Db, a: AllocationId, reviews: seq<string>) returns (decisions: seq<ReviewAction>)
    requires db.Valid() && a in db.allocations
    modifies db`allocations, db`events
    ensures db.Valid()
    ensures |decisions| == |reviews| && forall i :: 0 <= i < |reviews| ==> decisions[i] == ReviewUserDecision(reviews[i])
    ensures db.allocations == old(db.allocations)[a := old(db.allocations)[a].(status := AllocationStatus.RenewalRequested)]
    ensures db.events == old(db.events) + [AdminEmail(a, "Allocation Renewed")]
  {
    decisions := [];
    for i := 0 to |reviews|
      invariant |decisions| == i && forall j :: 0 <= j < i ==> decisions[j] == ReviewUserDecision(reviews[j])
    {
      decisions := decisions + [ReviewUserDecision(reviews[i])];
    }
    db.allocations := db.allocations[a := db.allocations[a].(status := AllocationStatus.RenewalRequested)];
    db.events := db.events + [AdminEmail(a, "Allocation Renewed")];
  }

  /** An allocation that was renewed cannot be renewed again until it is Active once more. */
  lemma RenewedNotRenewable(renewalEnabled: bool, allocation: Allocation, project: Project, expiresIn: int)
    ensures RenewDispatch(renewalEnabled, allocation.(status := AllocationStatus.RenewalRequested), project, expiresIn) != RenewProceeds
  {
  }

  // ---------------------------------------------------------------- change requests

  datatype ChangeGate = ChangeNeedsReview | ChangeArchivedProject | ChangeLocked | ChangeWrongStatus | ChangeProceeds

  const ChangeStatusNames: seq<string> := ["Active", "Renewal Requested", "Payment Pending", "Payment Requested", "Paid"]

  /** AllocationChangeView.dispatch, in its order. Note that a lock refuses superusers too. */
  function ChangeDispatch(allocation: Allocation, project: Project): (r: ChangeGate)
    ensures r == ChangeProceeds <==>
      && !project.needsReview && project.status in {ProjectStatus.Active, ProjectStatus.New}
      && !allocation.isLocked && allocation.status.Name() in ChangeStatusNames
  {
    if project.needsReview then ChangeNeedsReview
    else if project.status.Name() !in ["Active", "New"] then ChangeArchivedProject
    else if allocation.isLocked then ChangeLocked
    else if allocation.status.Name() !in ChangeStatusNames then ChangeWrongStatus
    else ChangeProceeds
  }

  /**
   * A change can be requested only where users could also be added, and
   * never on a New allocation (where adding users is allowed).
   */
  lemma ChangeGateWithinAddGate(allocation: Allocation, project: Project, requesterIsSuperuser: bool)
    ensures ChangeDispatch(allocation, project) == ChangeProceeds ==> AddUsersAllowed(allocation, requesterIsSuperuser)
    ensures allocation.status == AllocationStatus.New ==> ChangeDispatch(allocation, project) != ChangeProceeds
  {
  }
}
