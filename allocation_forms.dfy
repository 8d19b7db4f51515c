/**
 * The validators of the allocation forms (coldfront/core/allocation/forms.py):
 * the date order of the update form, the account, limit and initial-status
 * rules of the request form, the allocation-user formset's clean, the list
 * of extension choices, the change request's "has changed" test, the
 * attribute-change clean, and the decision of the renewal review form.
 */
module AllocationForms {
  import opened Wrappers
  import opened Text
  import opened Choices
  import opened Store

  // ---------------------------------------------------------------- update form

  /** AllocationUpdateForm.clean: valid unless both dates are given and the end precedes the start. */
  function UpdateFormClean(startDate: Option<Day>, endDate: Option<Day>): (ok: bool)
    ensures !ok <==> startDate.Some? && endDate.Some? && endDate.value < startDate.value
  {
    !(startDate.Some? && endDate.Some? && endDate.value < startDate.value)
  }

  /** An allocation's dates are in order: the end does not precede the start when both are set. */
  predicate DatesOrdered(a: Allocation)
  {
    a.startDate.Some? && a.endDate.Some? ==> a.startDate.value <= a.endDate.value
  }

  /** A form that passes the clean saves an allocation with ordered dates, whatever else it carries. */
  lemma UpdateFormCleanOrders(a: Allocation)
    ensures UpdateFormClean(a.startDate, a.endDate) <==> DatesOrdered(a)
  {
  }

  // ---------------------------------------------------------------- request form

  /** The RESOURCE facts AllocationForm.clean reads. */
  datatype ResourceInfo = ResourceInfo(name: string, allocationLimit: Option<int>, requiresPayment: bool)

  /** ALLOCATION_ACCOUNT_ENABLED and ALLOCATION_ACCOUNT_MAPPING; `attributeTypes` names the AllocationAttributeType rows. */
  datatype AccountSettings = AccountSettings(enabled: bool, mapping: map<string, string>, attributeTypes: set<string>)

  /** INVOICE_ENABLED and INVOICE_DEFAULT_STATUS (None: not configured). */
  datatype InvoiceSettings = InvoiceSettings(enabled: bool, defaultStatus: Option<string>)

  datatype AllocationFormError =
    | AccountNameMissing
    | AllocationLimitReached
    /** The initial status name has no AllocationStatusChoice row: `objects.get` raises DoesNotExist. */
    | StatusDoesNotExist

  datatype FormResult<T> = Cleaned(value: T) | Invalid(error: AllocationFormError)

  /** The statuses counted against a resource's allocation limit. */
  const LimitStatusNames: seq<string> := ["Active", "New", "Renewal Requested", "Paid", "Payment Pending", "Payment Requested"]

  /** The project's allocations on resource `r` in a counted status. */
  function CountedAllocations(allocations: map<AllocationId, Allocation>, p: ProjectId, r: ResourceId): (S: set<AllocationId>)
    ensures forall a :: a in S <==>
      a in allocations && allocations[a].project == p && r in allocations[a].resources
      && allocations[a].status.Name() in LimitStatusNames
  {
    set a | a in allocations && allocations[a].project == p && r in allocations[a].resources
      && allocations[a].status.Name() in LimitStatusNames
  }

  /** The account-name rule. */
  predicate NeedsAccountName(accounts: AccountSettings, resource: ResourceInfo, account: string)
  {
    && accounts.enabled
    && resource.name in accounts.mapping
    && accounts.mapping[resource.name] in accounts.attributeTypes
    && account == ""
  }

  /** The limit rule: a truthy limit that the counted allocations already reach. */
  predicate AtAllocationLimit(allocations: map<AllocationId, Allocation>, p: ProjectId, r: ResourceId, resource: ResourceInfo)
  {
    resource.allocationLimit.Some? && resource.allocationLimit.value != 0
    && |CountedAllocations(allocations, p, r)| >= resource.allocationLimit.value
  }

  /**
   * The status name used when invoicing applies and INVOICE_DEFAULT_STATUS
   * is not set. The source falls back to "Pending Payment" (see
   * InvoiceDefaultAsWritten); the model uses the status the payment
   * statuses are named with everywhere else.
   */
  const InvoiceDefaultFallback := "Payment Pending"

  function InvoiceStatusName(invoice: InvoiceSettings): string
  {
    invoice.defaultStatus.GetOr(InvoiceDefaultFallback)
  }

  /** INVOICE_DEFAULT_STATUS's fallback as written. */
  function InvoiceStatusNameAsWritten(invoice: InvoiceSettings): string
  {
    invoice.defaultStatus.GetOr("Pending Payment")
  }

  /** As written, an invoiced request with the setting unset fails the status lookup. */
  lemma InvoiceDefaultAsWritten()
    ensures AllocationStatusNamed(InvoiceStatusNameAsWritten(InvoiceSettings(true, None))).None?
  {
  }

  /** With the corrected fallback the same request starts in Payment Pending. */
  lemma InvoiceDefaultCorrected()
    ensures AllocationStatusNamed(InvoiceStatusName(InvoiceSettings(true, None))) == Some(AllocationStatus.PaymentPending)
  {
  }

  /**
   * AllocationForm.clean for project `p` and resource `r`: the account rule,
   * then the limit rule, then the lookup of the initial status, which is
   * `invoiceName` when invoicing applies to the resource and "New" otherwise.
   */
  function CleanWith(allocations: map<AllocationId, Allocation>, p: ProjectId, r: ResourceId, resource: ResourceInfo,
                     account: string, accounts: AccountSettings, invoice: InvoiceSettings, invoiceName: string): (res: FormResult<AllocationStatus>)
    ensures res == Invalid(AccountNameMissing) <==> NeedsAccountName(accounts, resource, account)
    ensures res == Invalid(AllocationLimitReached) <==>
      !NeedsAccountName(accounts, resource, account) && AtAllocationLimit(allocations, p, r, resource)
    ensures res.Cleaned? ==>
      !NeedsAccountName(accounts, resource, account) && !AtAllocationLimit(allocations, p, r, resource)
    ensures res.Cleaned? && !(invoice.enabled && resource.requiresPayment) ==> res.value == AllocationStatus.New
    ensures res.Cleaned? && invoice.enabled && resource.requiresPayment ==> res.value.Name() == invoiceName
    ensures res == Invalid(StatusDoesNotExist) <==>
      && !NeedsAccountName(accounts, resource, account) && !AtAllocationLimit(allocations, p, r, resource)
      && invoice.enabled && resource.requiresPayment && AllocationStatusNamed(invoiceName).None?
  {
    if accounts.enabled && resource.name in accounts.mapping
       && accounts.mapping[resource.name] in accounts.attributeTypes && account == "" then
      Invalid(AccountNameMissing)
    else if resource.allocationLimit.Some? && resource.allocationLimit.value != 0
            && |CountedAllocations(allocations, p, r)| >= resource.allocationLimit.value then
      Invalid(AllocationLimitReached)
    else
      var name := if invoice.enabled && resource.requiresPayment then invoiceName else "New";
      match AllocationStatusNamed(name)
      case Some(s) => Cleaned(s)
      case None => Invalid(StatusDoesNotExist)
  }

  /**
   * AllocationForm.clean as written: with invoicing on, a resource that
   * requires payment and INVOICE_DEFAULT_STATUS unset, the request that
   * passes the account and limit rules fails the status lookup.
   */
  function AllocationFormClean(allocations: map<AllocationId, Allocation>, p: ProjectId, r: ResourceId, resource: ResourceInfo,
                               account: string, accounts: AccountSettings, invoice: InvoiceSettings): (res: FormResult<AllocationStatus>)
    ensures res.Cleaned? && invoice.enabled && resource.requiresPayment ==> res.value.Name() == InvoiceStatusNameAsWritten(invoice)
    ensures invoice.enabled && resource.requiresPayment && invoice.defaultStatus.None?
            && !NeedsAccountName(accounts, resource, account) && !AtAllocationLimit(allocations, p, r, resource)
            ==> res == Invalid(StatusDoesNotExist)
  {
    CleanWith(allocations, p, r, resource, account, accounts, invoice, InvoiceStatusNameAsWritten(invoice))
  }

  /** The same clean with the corrected fallback: an unset INVOICE_DEFAULT_STATUS never fails the lookup. */
  function AllocationFormCleanCorrected(allocations: map<AllocationId, Allocation>, p: ProjectId, r: ResourceId, resource: ResourceInfo,
                                        account: string, accounts: AccountSettings, invoice: InvoiceSettings): (res: FormResult<AllocationStatus>)
    ensures invoice.defaultStatus.None? ==> res != Invalid(StatusDoesNotExist)
    ensures invoice.defaultStatus.None? && invoice.enabled && resource.requiresPayment && res.Cleaned?
            ==> res.value == AllocationStatus.PaymentPending
    ensures invoice.defaultStatus.None? && !NeedsAccountName(accounts, resource, account)
            && !AtAllocationLimit(allocations, p, r, resource)
            ==> res.Cleaned?
  {
    CleanWith(allocations, p, r, resource, account, accounts, invoice, InvoiceStatusName(invoice))
  }

  /**
   * The limit holds after creation: when the form is valid and the new
   * allocation `a` is added to the project on resource `r`, the counted
   * allocations still do not exceed a truthy limit.
   */
  lemma AllocationLimitKept(allocations: map<AllocationId, Allocation>, p: ProjectId, r: ResourceId, resource: ResourceInfo,
                            account: string, accounts: AccountSettings, invoice: InvoiceSettings,
                            a: AllocationId, created: Allocation)
    requires AllocationFormClean(allocations, p, r, resource, account, accounts, invoice).Cleaned?
    requires a !in allocations && created.project == p
    requires resource.allocationLimit.Some? && resource.allocationLimit.value != 0
    ensures |CountedAllocations(allocations[a := created], p, r)| <= resource.allocationLimit.value
  {
    var before := CountedAllocations(allocations, p, r);
    var after := CountedAllocations(allocations[a := created], p, r);
    assert after <= before + {a};
    assert |before + {a}| == |before| + 1;
    SubsetCard(after, before + {a});
  }

  lemma SubsetCard<T>(A: set<T>, B: set<T>)
    requires A <= B
    ensures |A| <= |B|
  {
    assert B == A + (B - A);
  }

  // ---------------------------------------------------------------- allocation-user formset

  datatype FormsetAction = Add | Remove

  /** One AllocationUserForm: its `selected` box and the row it stands for. */
  datatype UserForm = UserForm(selected: bool, user: UserId, allocation: AllocationId, status: AllocationUserStatus)

  /** On ADD, whether a selected form's user is held at PendingEULA. */
  predicate HeldForEula(db: Db, eulaEnabled: bool, f: UserForm)
    requires f.user in db.users && f.allocation in db.allocations
    reads db
  {
    eulaEnabled && !db.users[f.user].isPi && db.allocations[f.allocation].hasEula
  }

  /** On REMOVE, whether a selected form names the PI of its allocation's project. */
  predicate RemovesPi(db: Db, f: UserForm)
    requires db.Valid() && f.allocation in db.allocations
    reads db
  {
    db.projects[db.allocations[f.allocation].project].pi == f.user
  }

  /**
   * BaseAllocationUserFormSet.clean. With errors already present nothing
   * is done. On ADD every selected form whose user is held for the EULA
   * gets status PendingEULA and the others keep theirs. On REMOVE the
   * forms are unchanged and the clean fails at the first selected form
   * that names the project PI.
   */
  method CleanUserFormset(db: Db, action: FormsetAction, forms: seq<UserForm>, hasErrors: bool, eulaEnabled: bool)
    returns (cleaned: seq<UserForm>, piError: bool)
    requires db.Valid()
    requires forall i :: 0 <= i < |forms| ==> forms[i].user in db.users && forms[i].allocation in db.allocations
    ensures |cleaned| == |forms|
    ensures hasErrors ==> cleaned == forms && !piError
    ensures action == Add ==> !piError
    ensures !hasErrors && action == Add ==> forall i :: 0 <= i < |forms| ==>
      cleaned[i] == (if forms[i].selected && HeldForEula(db, eulaEnabled, forms[i])
                     then forms[i].(status := AllocationUserStatus.PendingEULA) else forms[i])
    ensures action == Remove ==> cleaned == forms
    ensures !hasErrors && action == Remove ==>
      (piError <==> exists i :: 0 <= i < |forms| && forms[i].selected && RemovesPi(db, forms[i]))
  {
    cleaned, piError := forms, false;
    if hasErrors {
      return;
    }
    var i := 0;
    while i < |forms|
      invariant 0 <= i <= |forms| && |cleaned| == |forms| && !piError
      invariant action == Remove ==> cleaned == forms
      invariant action == Remove ==> forall j :: 0 <= j < i ==> !(forms[j].selected && RemovesPi(db, forms[j]))
      invariant action == Add ==> forall j :: 0 <= j < |forms| ==>
        cleaned[j] == (if j < i && forms[j].selected && HeldForEula(db, eulaEnabled, forms[j])
                       then forms[j].(status := AllocationUserStatus.PendingEULA) else forms[j])
    {
      var f := forms[i];
      if f.selected {
        if action == Add {
          if eulaEnabled && !db.users[f.user].isPi && db.allocations[f.allocation].hasEula {
            cleaned := cleaned[i := f.(status := AllocationUserStatus.PendingEULA)];
          }
        } else if db.projects[db.allocations[f.allocation].project].pi == f.user {
          piError := true;
          return;
        }
      }
      i := i + 1;
    }
  }

  // ---------------------------------------------------------------- change request form

  /**
   * AllocationChangeRequestForm.EXTENSION_CHOICES, built from
   * ALLOCATION_CHANGE_REQUEST_EXTENSION_DAYS by appending in a loop.
   */
  method ExtensionChoices(days: seq<int>) returns (choices: seq<(int, string)>)
    ensures |choices| == |days| + 1
    ensures choices[0] == (0, "No Extension")
    ensures forall i :: 0 <= i < |days| ==> choices[i + 1] == (days[i], IntToString(days[i]) + " days")
  {
    choices := [(0, "No Extension")];
    for i := 0 to |days|
      invariant |choices| == i + 1
      invariant choices[0] == (0, "No Extension")
      invariant forall j :: 0 <= j < i ==> choices[j + 1] == (days[j], IntToString(days[j]) + " days")
    {
      choices := choices + [(days[i], IntToString(days[i]) + " days")];
    }
  }

  /** The fields a change request's form ignores when deciding whether it changed. */
  const IgnoredChangeFields: set<string> := {"justification", "notes"}

  /** AllocationChangeRequestForm.has_changed over the form's changed field names. */
  function HasChanged(changedData: set<string>): (r: bool)
    ensures r <==> exists f :: f in changedData && f != "justification" && f != "notes"
  {
    var rest := changedData - IgnoredChangeFields;
    assert forall f :: f in changedData && f != "justification" && f != "notes" ==> f in rest;
    rest != {}
  }

  /** Editing only the justification or the notes never counts as a change, and adding them changes nothing. */
  lemma HasChangedIgnoresNotes(changedData: set<string>)
    ensures HasChanged(changedData + IgnoredChangeFields) == HasChanged(changedData)
    ensures HasChanged(changedData - IgnoredChangeFields) == HasChanged(changedData)
    ensures changedData <= IgnoredChangeFields ==> !HasChanged(changedData)
  {
  }

  // ---------------------------------------------------------------- attribute change form

  datatype AttributeChangeClean = NoChangeRequested | ChangeCleaned(attributeValue: string)

  /**
   * AllocationAttributeChangeRequestForm.clean on an attribute whose value
   * is `current`: asking for the current value is refused; otherwise the
   * attribute's value in memory becomes the new value, unless that is empty.
   */
  function CleanAttributeChange(current: string, newValue: string): (r: AttributeChangeClean)
    ensures r == NoChangeRequested <==> newValue == current
    ensures r.ChangeCleaned? && newValue != "" ==> r.attributeValue == newValue
    ensures r.ChangeCleaned? && newValue == "" ==> r.attributeValue == current
  {
    if current == newValue then NoChangeRequested
    else if newValue != "" then ChangeCleaned(newValue)
    else ChangeCleaned(current)
  }

  /** A clean that passes changes the attribute in memory exactly when a non-empty value was asked for. */
  lemma CleanAttributeChangeEffect(current: string, newValue: string)
    requires CleanAttributeChange(current, newValue).ChangeCleaned?
    ensures CleanAttributeChange(current, newValue).attributeValue != current <==> newValue != ""
  {
  }

  // ---------------------------------------------------------------- renewal review form

  /** What AllocationReviewUserForm.save does for one user. */
  datatype ReviewAction = KeepInAllocationAndProject | RemoveFromAllocation | RemoveFromProject

  /** The choice values of the `user_status` field. */
  const ReviewChoices: seq<string> := ["keep_in_allocation_and_project", "keep_in_project_only", "remove_from_project"]

  /** AllocationReviewUserForm.save: the `user_status` choice decides the removal, if any. */
  function ReviewUserDecision(userStatus: string): (r: ReviewAction)
    ensures r == RemoveFromAllocation <==> userStatus == "keep_in_project_only"
    ensures r == RemoveFromProject <==> userStatus == "remove_from_project"
  {
    if userStatus == "keep_in_project_only" then RemoveFromAllocation
    else if userStatus == "remove_from_project" then RemoveFromProject
    else KeepInAllocationAndProject
  }

  /** The three choices lead to three different actions, in the order the form lists them. */
  lemma ReviewChoicesDistinct()
    ensures ReviewUserDecision(ReviewChoices[0]) == KeepInAllocationAndProject
    ensures ReviewUserDecision(ReviewChoices[1]) == RemoveFromAllocation
    ensures ReviewUserDecision(ReviewChoices[2]) == RemoveFromProject
  {
  }
}
