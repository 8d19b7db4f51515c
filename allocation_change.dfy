/**
 * Reviewing an allocation change request: AllocationChangeDetailView.post
 * (coldfront/core/allocation/views.py), with the change request form and
 * the attribute change formset it binds (coldfront/core/allocation/forms.py).
 */
module AllocationChange {
  import opened Wrappers
  import opened Choices
  import opened Store
  import opened AllocationForms

  const ChangeDetailSender: Sender := Some("AllocationChangeDetailView")

  datatype ChangeAction = Update | Approve | Deny

  /** `action not in ["update", "approve", "deny"]` refuses the request; a missing action is None. */
  function ParseChangeAction(action: Option<string>): (r: Option<ChangeAction>)
    ensures r.Some? <==> action.Some? && action.value in ["update", "approve", "deny"]
    ensures r == Some(Update) <==> action == Some("update")
    ensures r == Some(Approve) <==> action == Some("approve")
    ensures r == Some(Deny) <==> action == Some("deny")
  {
    match action
    case None => None
    case Some(name) =>
      if name == "update" then Some(Update)
      else if name == "approve" then Some(Approve)
      else if name == "deny" then Some(Deny)
      else None
  }

  /**
   * What the superuser posts: the action, the extension field (None when left
   * empty), the notes, and one new value per attribute change row.
   */
  datatype ChangePost = ChangePost(action: Option<string>, endDateExtension: Option<int>, notes: string, newValues: seq<string>)

  // ---------------------------------------------------------------- the change request form

  /**
   * The extension field is enabled only on a Pending request (the poster is
   * a superuser by then); a disabled field takes its initial value, and an
   * empty enabled one coerces to 0.
   */
  function BoundExtension(cr: ChangeRequest, post: ChangePost): (ext: int)
    ensures cr.status != ChangeStatus.Pending ==> ext == cr.endDateExtension
    ensures cr.status == ChangeStatus.Pending && post.endDateExtension.None? ==> ext == 0
  {
    if cr.status == ChangeStatus.Pending then post.endDateExtension.GetOr(0) else cr.endDateExtension
  }

  /** The form is valid when the bound extension is one of the choices: 0 or a configured number of days. */
  predicate FormValid(cr: ChangeRequest, post: ChangePost, days: seq<int>): (r: bool)
    ensures r <==> BoundExtension(cr, post) == 0 || BoundExtension(cr, post) in days
    ensures cr.status != ChangeStatus.Pending ==> (r <==> cr.endDateExtension == 0 || cr.endDateExtension in days)
  {
    BoundExtension(cr, post) in [0] + days
  }

  /** The names in `changed_data`: the extension when it differs from the stored one, the notes when edited. */
  function ChangedFields(cr: ChangeRequest, post: ChangePost): (r: set<string>)
    ensures "end_date_extension" in r <==> BoundExtension(cr, post) != cr.endDateExtension
    ensures "notes" in r <==> post.notes != cr.notes
    ensures r <= {"end_date_extension", "notes"}
  {
    (if BoundExtension(cr, post) != cr.endDateExtension then {"end_date_extension"} else {})
    + (if post.notes != cr.notes then {"notes"} else {})
  }

  /** `form.has_changed()`: only a different extension counts. */
  lemma FormChangedIffExtension(cr: ChangeRequest, post: ChangePost)
    ensures HasChanged(ChangedFields(cr, post)) <==> BoundExtension(cr, post) != cr.endDateExtension
    ensures cr.status != ChangeStatus.Pending ==> !HasChanged(ChangedFields(cr, post))
  {
    var r := ChangedFields(cr, post);
    if BoundExtension(cr, post) != cr.endDateExtension {
      assert "end_date_extension" in r;
    }
  }

  // ---------------------------------------------------------------- the attribute change formset

  /**
   * Every attribute form is valid: one per row, each cleaned by
   * AllocationAttributeChangeRequestForm.clean; so a valid formset is one
   * that asks for a new value, other than the current one, on every row.
   */
  predicate FormsetValid(attributes: map<AttributeId, Attribute>, cr: ChangeRequest, post: ChangePost): (r: bool)
    requires ChangesExist(cr, attributes)
    ensures r <==> |post.newValues| == |cr.changes|
                   && forall i :: 0 <= i < |cr.changes| ==> post.newValues[i] != attributes[cr.changes[i].attribute].value
  {
    && |post.newValues| == |cr.changes|
    && forall i :: 0 <= i < |cr.changes| ==>
         CleanAttributeChange(attributes[cr.changes[i].attribute].value, post.newValues[i]) != NoChangeRequested
  }

  /**
   * `change_requested` as written: `form.has_changed() or (formset and
   * formset.is_valid())`. A formset object is always truthy, so once the
   * formset is valid this holds whatever was posted.
   */
  function ChangeRequestedAsWritten(formChanged: bool, formsetValid: bool): bool
  {
    formChanged || (true && formsetValid)
  }

  /** The "You must make a change" refusal can never happen: that test runs only on a valid formset. */
  lemma ChangeRequestedAsWrittenAlways(formChanged: bool)
    ensures ChangeRequestedAsWritten(formChanged, true)
  {
  }

  /** The intended test: the form changed, or there is at least one attribute change left. */
  function ChangeRequested(formChanged: bool, changeCount: nat): (r: bool)
    ensures r <==> formChanged || changeCount > 0
  {
    formChanged || changeCount > 0
  }

  /**
   * A request whose attribute changes were all deleted and whose extension
   * is unchanged is refused by the intended test, yet passes the one
   * written.
   */
  lemma ChangeRequestedDiffers(cr: ChangeRequest, post: ChangePost)
    requires cr.changes == [] && BoundExtension(cr, post) == cr.endDateExtension
    ensures !ChangeRequested(HasChanged(ChangedFields(cr, post)), |cr.changes|)
    ensures ChangeRequestedAsWritten(HasChanged(ChangedFields(cr, post)), true)
  {
    FormChangedIffExtension(cr, post);
  }

  // ---------------------------------------------------------------- saving

  /** `formset.save()`: each row's new value becomes the posted one. */
  function WithNewValues(changes: seq<AttributeChange>, newValues: seq<string>): (r: seq<AttributeChange>)
    requires |newValues| == |changes|
    ensures |r| == |changes|
    ensures forall i :: 0 <= i < |changes| ==> r[i] == AttributeChange(changes[i].attribute, newValues[i])
  {
    if changes == [] then []
    else WithNewValues(changes[..|changes| - 1], newValues[..|changes| - 1])
         + [AttributeChange(changes[|changes| - 1].attribute, newValues[|changes| - 1])]
  }

  /** `form.save()` then `formset.save()`: notes and extension from the form, the new values from the formset. */
  function SavedRequest(cr: ChangeRequest, post: ChangePost): (r: ChangeRequest)
    requires |post.newValues| == |cr.changes|
    ensures r.allocation == cr.allocation && r.status == cr.status && r.justification == cr.justification
    ensures r.notes == post.notes && r.endDateExtension == BoundExtension(cr, post)
    ensures |r.changes| == |cr.changes|
  {
    cr.(notes := post.notes, endDateExtension := BoundExtension(cr, post), changes := WithNewValues(cr.changes, post.newValues))
  }

  /** The attributes after the approval loop has written each row's new value into its attribute, one after the other. */
  function ApplyValues(attributes: map<AttributeId, Attribute>, changes: seq<AttributeChange>): (r: map<AttributeId, Attribute>)
    requires forall i :: 0 <= i < |changes| ==> changes[i].attribute in attributes
    ensures r.Keys == attributes.Keys
    ensures forall t :: t in r ==> r[t].allocation == attributes[t].allocation
  {
    if changes == [] then attributes
    else
      var last := changes[|changes| - 1];
      var before := ApplyValues(attributes, changes[..|changes| - 1]);
      before[last.attribute := before[last.attribute].(value := last.newValue)]
  }

  /**
   * The approval writes the last value asked for each listed attribute and
   * leaves every other attribute as it was.
   */
  lemma {:induction false} ApplyValuesLastWrite(attributes: map<AttributeId, Attribute>, changes: seq<AttributeChange>)
    requires forall i :: 0 <= i < |changes| ==> changes[i].attribute in attributes
    ensures forall i :: 0 <= i < |changes| && (forall j :: i < j < |changes| ==> changes[j].attribute != changes[i].attribute) ==>
      ApplyValues(attributes, changes)[changes[i].attribute].value == changes[i].newValue
    ensures forall t :: t in attributes && (forall i :: 0 <= i < |changes| ==> changes[i].attribute != t) ==>
      ApplyValues(attributes, changes)[t] == attributes[t]
  {
    if changes != [] {
      var n := |changes| - 1;
      var cs := changes[..n];
      ApplyValuesLastWrite(attributes, cs);
      forall i | 0 <= i < n && (forall j :: i < j < |changes| ==> changes[j].attribute != changes[i].attribute)
        ensures ApplyValues(attributes, changes)[changes[i].attribute].value == changes[i].newValue
      {
        assert cs[i] == changes[i];
        forall j | i < j < |cs| ensures cs[j].attribute != cs[i].attribute {
          assert cs[j] == changes[j];
        }
      }
      forall t | t in attributes && (forall i :: 0 <= i < |changes| ==> changes[i].attribute != t)
        ensures ApplyValues(attributes, changes)[t] == attributes[t]
      {
        forall i | 0 <= i < |cs| ensures cs[i].attribute != t {
          assert cs[i] == changes[i];
        }
      }
    }
  }

  /** The signals of the corrected approval loop: one allocation_attribute_changed per row. */
  function AttributeSignals(changes: seq<AttributeChange>, allocation: AllocationId): (r: seq<Event>)
    ensures |r| == |changes|
  {
    if changes == [] then []
    else AttributeSignals(changes[..|changes| - 1], allocation)
         + [AllocationAttributeChanged(ChangeDetailSender, changes[|changes| - 1].attribute, allocation)]
  }

  /** Row by row: the i-th signal names the i-th row's attribute and the request's allocation. */
  lemma {:induction false} AttributeSignalsEach(changes: seq<AttributeChange>, allocation: AllocationId)
    ensures forall i :: 0 <= i < |changes| ==>
      AttributeSignals(changes, allocation)[i] == AllocationAttributeChanged(ChangeDetailSender, changes[i].attribute, allocation)
  {
    if changes != [] {
      var n := |changes| - 1;
      AttributeSignalsEach(changes[..n], allocation);
      forall i | 0 <= i < |changes|
        ensures AttributeSignals(changes, allocation)[i] == AllocationAttributeChanged(ChangeDetailSender, changes[i].attribute, allocation)
      {
        if i < n {
          assert changes[..n][i] == changes[i];
        }
      }
    }
  }

  /** The allocations after the approval adds `ext` days to the end date of allocation `a`, when `ext` is positive. */
  function Extended(allocations: map<AllocationId, Allocation>, a: AllocationId, ext: int): (r: map<AllocationId, Allocation>)
    requires a in allocations && (ext > 0 ==> allocations[a].endDate.Some?)
    ensures r.Keys == allocations.Keys
    ensures forall b :: b in r && b != a ==> r[b] == allocations[b]
    ensures r[a] == allocations[a].(endDate := r[a].endDate)
    ensures ext > 0 ==> r[a].endDate == Some(allocations[a].endDate.value + ext)
    ensures ext <= 0 ==> r == allocations
  {
    if ext > 0 then allocations[a := allocations[a].(endDate := Some(allocations[a].endDate.value + ext))] else allocations
  }

  /**
   * The loop over the formset on approval, with the allocation taken from
   * the change request: each attribute takes its row's new value, then its
   * change is signalled.
   */
  method ApplyAttributeChanges(attributes: map<AttributeId, Attribute>, changes: seq<AttributeChange>, allocation: AllocationId)
    returns (attributes': map<AttributeId, Attribute>, signals: seq<Event>)
    requires forall i :: 0 <= i < |changes| ==> changes[i].attribute in attributes
    ensures attributes' == ApplyValues(attributes, changes)
    ensures signals == AttributeSignals(changes, allocation)
  {
    attributes', signals := attributes, [];
    var i := 0;
    while i < |changes|
      invariant 0 <= i <= |changes|
      invariant attributes' == ApplyValues(attributes, changes[..i])
      invariant signals == AttributeSignals(changes[..i], allocation)
    {
      assert changes[..i + 1][..i] == changes[..i];
      var t := changes[i].attribute;
      attributes' := attributes'[t := attributes'[t].(value := changes[i].newValue)];
      signals := signals + [AllocationAttributeChanged(ChangeDetailSender, t, allocation)];
      i := i + 1;
    }
    assert changes[..|changes|] == changes;
  }

  /** How the as-written approval loop ends. */
  datatype LoopEnd = LoopCompleted | LoopCrashed

  /**
   * The attributes after the approval loop as written: `form_data.get("allocation")`
   * is None, since the attribute form has no such field, so `allocation.pk`
   * raises in the first pass, right after the first row's attribute is saved.
   * Only that attribute changes.
   */
  function AsWrittenLoopAttributes(attributes: map<AttributeId, Attribute>, changes: seq<AttributeChange>): (r: map<AttributeId, Attribute>)
    requires forall i :: 0 <= i < |changes| ==> changes[i].attribute in attributes
    ensures r.Keys == attributes.Keys
    ensures forall t :: t in r ==> r[t].allocation == attributes[t].allocation
    ensures changes != [] ==> r[changes[0].attribute].value == changes[0].newValue
    ensures forall t :: t in attributes && (changes == [] || t != changes[0].attribute) ==> r[t] == attributes[t]
  {
    if changes == [] then attributes
    else attributes[changes[0].attribute := attributes[changes[0].attribute].(value := changes[0].newValue)]
  }

  /**
   * The approval loop as written: the first pass saves its attribute and
   * then raises before sending its signal, so no signal is sent and the
   * loop ends by crashing whenever there is a row.
   */
  method ApplyAttributeChangesAsWritten(attributes: map<AttributeId, Attribute>, changes: seq<AttributeChange>)
    returns (attributes': map<AttributeId, Attribute>, signals: seq<Event>, end: LoopEnd)
    requires forall i :: 0 <= i < |changes| ==> changes[i].attribute in attributes
    ensures attributes' == AsWrittenLoopAttributes(attributes, changes)
    ensures signals == []
    ensures end == LoopCrashed <==> changes != []
  {
    attributes', signals, end := attributes, [], LoopCompleted;
    var i := 0;
    while i < |changes| && end == LoopCompleted
      invariant 0 <= i <= |changes|
      invariant end == LoopCompleted <==> i == 0
      invariant i == 0 ==> attributes' == attributes
      invariant i > 0 ==> i == 1 && attributes' == AsWrittenLoopAttributes(attributes, changes)
      invariant signals == []
    {
      var t := changes[i].attribute;
      attributes' := attributes'[t := attributes'[t].(value := changes[i].newValue)];
      // `allocation` is None: reading its pk raises before the signal is sent.
      end := LoopCrashed;
      i := i + 1;
    }
  }

  /**
   * On two rows for different attributes, the corrected loop signals both
   * rows and writes the second row's value; the one written stops after
   * the first row, so the second attribute keeps its old value.
   */
  lemma AsWrittenLoopDiffers(attributes: map<AttributeId, Attribute>, changes: seq<AttributeChange>, a: AllocationId)
    requires |changes| == 2
    requires forall i :: 0 <= i < |changes| ==> changes[i].attribute in attributes
    requires changes[1].attribute != changes[0].attribute && changes[1].newValue != attributes[changes[1].attribute].value
    ensures AsWrittenLoopAttributes(attributes, changes)[changes[1].attribute] == attributes[changes[1].attribute]
    ensures AsWrittenLoopAttributes(attributes, changes)[changes[0].attribute].value == changes[0].newValue
    ensures ApplyValues(attributes, changes)[changes[1].attribute].value == changes[1].newValue
    ensures AttributeSignals(changes, a) == [AllocationAttributeChanged(ChangeDetailSender, changes[0].attribute, a),
                                            AllocationAttributeChanged(ChangeDetailSender, changes[1].attribute, a)]
  {
    ApplyValuesLastWrite(attributes, changes);
    AttributeSignalsEach(changes, a);
  }

  /** Changing attribute values keeps every change request's attributes in place. */
  method SaveAttributeValues(db: Db, attributes: map<AttributeId, Attribute>)
    requires db.Valid()
    requires attributes.Keys == db.attributes.Keys
    requires forall t :: t in attributes ==> attributes[t].allocation == db.attributes[t].allocation
    modifies db`attributes
    ensures db.Valid() && db.attributes == attributes
  {
    assert forall c :: c in db.changeRequests ==> ChangesExist(db.changeRequests[c], attributes) by {
      forall c | c in db.changeRequests ensures ChangesExist(db.changeRequests[c], attributes) {
        assert ChangesExist(db.changeRequests[c], db.attributes);
      }
    }
    db.attributes := attributes;
  }

  /** Saving allocations that keep their keys and projects keeps the store consistent. */
  method SaveAllocations(db: Db, allocations: map<AllocationId, Allocation>)
    requires db.Valid()
    requires allocations.Keys == db.allocations.Keys
    requires forall b :: b in allocations ==> allocations[b].project == db.allocations[b].project
    modifies db`allocations
    ensures db.Valid() && db.allocations == allocations
  {
    db.allocations := allocations;
  }

  /** Saving change request `c` on an existing allocation with existing attributes keeps the store consistent. */
  method SaveChangeRequest(db: Db, c: ChangeId, cr: ChangeRequest)
    requires db.Valid()
    requires cr.allocation in db.allocations && ChangesExist(cr, db.attributes)
    modifies db`changeRequests
    ensures db.Valid() && db.changeRequests == old(db.changeRequests)[c := cr]
  {
    db.changeRequests := db.changeRequests[c := cr];
  }

  /** Sending signals and e-mails, in order. */
  method Emit(db: Db, es: seq<Event>)
    requires db.Valid()
    modifies db`events
    ensures db.Valid() && db.events == old(db.events) + es
  {
    db.events := db.events + es;
  }

  // ---------------------------------------------------------------- the view

  datatype ChangeOutcome =
    | ChangeNotFound404
    | ChangeNotPermitted
    | ChangeBadRequest
    | ChangeFormInvalid
    | ChangeFormsetInvalid
    | ChangeRedirect
    | ChangeCrashed       // TypeError: an extension on an allocation without an end date
    | ChangeLoopCrashed   // AttributeError: `allocation.pk` on None in the approval loop

  /** The outcomes that leave everything as it was. */
  predicate Refused(outcome: ChangeOutcome)
  {
    || outcome.ChangeNotFound404? || outcome.ChangeNotPermitted? || outcome.ChangeBadRequest?
    || outcome.ChangeFormInvalid? || outcome.ChangeFormsetInvalid?
  }

  /** The request that was denied: the form's notes and extension are saved, with status Denied. */
  function DeniedRequest(cr: ChangeRequest, post: ChangePost): (r: ChangeRequest)
    ensures r.status == ChangeStatus.Denied
    ensures r.allocation == cr.allocation && r.justification == cr.justification && r.changes == cr.changes
    ensures r.notes == post.notes
    ensures cr.status != ChangeStatus.Pending ==> r.endDateExtension == cr.endDateExtension
  {
    cr.(notes := post.notes, endDateExtension := BoundExtension(cr, post), status := ChangeStatus.Denied)
  }

  /** The saved request still lists the same attributes. */
  lemma SavedRequestKeepsAttributes(cr: ChangeRequest, post: ChangePost, attributes: map<AttributeId, Attribute>)
    requires |post.newValues| == |cr.changes| && ChangesExist(cr, attributes)
    ensures ChangesExist(SavedRequest(cr, post), attributes)
  {
    var r := SavedRequest(cr, post);
    forall ch | ch in r.changes ensures ch.attribute in attributes {
      var i :| 0 <= i < |r.changes| && r.changes[i] == ch;
      assert cr.changes[i] in cr.changes;
    }
  }

  /** Referential integrity of the change requests, as the decision needs it. */
  predicate RequestsConsistent(changeRequests: map<ChangeId, ChangeRequest>, allocations: map<AllocationId, Allocation>,
                               attributes: map<AttributeId, Attribute>)
  {
    forall c :: c in changeRequests ==> changeRequests[c].allocation in allocations && ChangesExist(changeRequests[c], attributes)
  }

  /**
   * How the update and approve actions end on request `cr`: the formset
   * check; then, on approval, a crash when the extension meets an
   * allocation without an end date, and a crash in the approval loop when
   * the request lists any attribute. The "You must make a change" check in
   * between never refuses (ChangeRequestedAsWrittenAlways).
   */
  function SavedPhaseOutcome(cr: ChangeRequest, approve: bool, post: ChangePost,
                             attributes: map<AttributeId, Attribute>, allocations: map<AllocationId, Allocation>): (r: ChangeOutcome)
    requires ChangesExist(cr, attributes) && cr.allocation in allocations
    ensures r == ChangeFormsetInvalid <==> !FormsetValid(attributes, cr, post)
    ensures !approve ==> r == ChangeFormsetInvalid || r == ChangeRedirect
    ensures r == ChangeCrashed <==>
      approve && FormsetValid(attributes, cr, post) && BoundExtension(cr, post) > 0 && allocations[cr.allocation].endDate.None?
    ensures r == ChangeLoopCrashed <==>
      approve && FormsetValid(attributes, cr, post) && r != ChangeCrashed && cr.changes != []
    ensures approve && r == ChangeRedirect ==>
      cr.changes == [] && (BoundExtension(cr, post) > 0 ==> allocations[cr.allocation].endDate.Some?)
  {
    if !FormsetValid(attributes, cr, post) then ChangeFormsetInvalid
    else if !approve then ChangeRedirect
    else if BoundExtension(cr, post) > 0 && allocations[cr.allocation].endDate.None? then ChangeCrashed
    else if cr.changes != [] then ChangeLoopCrashed
    else ChangeRedirect
  }

  /** The decision AllocationChangeDetailView.post takes, in the order of its checks. */
  function PostOutcome(changeRequests: map<ChangeId, ChangeRequest>, allocations: map<AllocationId, Allocation>,
                       attributes: map<AttributeId, Attribute>, c: ChangeId, requesterIsSuperuser: bool,
                       post: ChangePost, days: seq<int>): (r: ChangeOutcome)
    requires RequestsConsistent(changeRequests, allocations, attributes)
    ensures r == ChangeNotFound404 <==> c !in changeRequests
    ensures r == ChangeNotPermitted <==> c in changeRequests && !requesterIsSuperuser
    ensures r == ChangeBadRequest <==> c in changeRequests && requesterIsSuperuser && ParseChangeAction(post.action).None?
    ensures r == ChangeFormInvalid <==>
      c in changeRequests && requesterIsSuperuser && ParseChangeAction(post.action).Some?
      && !FormValid(changeRequests[c], post, days)
  {
    if c !in changeRequests then ChangeNotFound404
    else if !requesterIsSuperuser then ChangeNotPermitted
    else match ParseChangeAction(post.action)
      case None => ChangeBadRequest
      case Some(action) =>
        var cr := changeRequests[c];
        if !FormValid(cr, post, days) then ChangeFormInvalid
        else if action == Deny then ChangeRedirect
        else SavedPhaseOutcome(cr, action == Approve, post, attributes, allocations)
  }

  /**
   * Only a superuser's well-formed post on an existing request changes
   * anything, a denial always succeeds, an update never crashes, a request
   * that gets past the formset lists one new value per row, and an approval
   * succeeds only on a request without attribute rows.
   */
  lemma PostOutcomeRules(changeRequests: map<ChangeId, ChangeRequest>, allocations: map<AllocationId, Allocation>,
                         attributes: map<AttributeId, Attribute>, c: ChangeId, requesterIsSuperuser: bool,
                         post: ChangePost, days: seq<int>)
    requires RequestsConsistent(changeRequests, allocations, attributes)
    ensures var r := PostOutcome(changeRequests, allocations, attributes, c, requesterIsSuperuser, post, days);
      && (!Refused(r) ==> c in changeRequests && requesterIsSuperuser && ParseChangeAction(post.action).Some?
                          && FormValid(changeRequests[c], post, days))
      && (c in changeRequests && requesterIsSuperuser && post.action == Some("deny") ==>
            (r == ChangeRedirect <==> FormValid(changeRequests[c], post, days)))
      && (r == ChangeCrashed || r == ChangeLoopCrashed ==> post.action == Some("approve"))
      && (c in changeRequests && post.action == Some("deny") ==> r != ChangeFormsetInvalid)
      && (!Refused(r) && post.action != Some("deny") ==> |post.newValues| == |changeRequests[c].changes|)
      && (r == ChangeRedirect && post.action == Some("approve") ==> changeRequests[c].changes == [])
  {
  }

  /**
   * AllocationChangeDetailView.post on change request `c`, by a requester
   * who is a superuser or not, with the configured extension `days`.
   */
  method ChangeDetailPost(db: Db, c: ChangeId, requesterIsSuperuser: bool, post: ChangePost, days: seq<int>)
    returns (outcome: ChangeOutcome)
    requires db.Valid()
    modifies db`changeRequests, db`allocations, db`attributes, db`events
    ensures db.Valid()
    ensures RequestsConsistent(old(db.changeRequests), old(db.allocations), old(db.attributes))
    ensures outcome == PostOutcome(old(db.changeRequests), old(db.allocations), old(db.attributes), c, requesterIsSuperuser, post, days)
    ensures Refused(outcome) ==>
      && db.changeRequests == old(db.changeRequests) && db.allocations == old(db.allocations)
      && db.attributes == old(db.attributes) && db.events == old(db.events)
    ensures !Refused(outcome) && post.action == Some("deny") ==>
      var cr := old(db.changeRequests)[c];
      && db.changeRequests == old(db.changeRequests)[c := DeniedRequest(cr, post)]
      && db.allocations == old(db.allocations) && db.attributes == old(db.attributes)
      && db.events == old(db.events) + [CustomerEmail(cr.allocation, "Allocation Change Denied")]
    ensures !Refused(outcome) && post.action == Some("update") ==>
      var cr := old(db.changeRequests)[c];
      && |post.newValues| == |cr.changes|
      && db.changeRequests == old(db.changeRequests)[c := if cr.status == ChangeStatus.Pending then SavedRequest(cr, post)
                                                         else cr.(notes := post.notes)]
      && db.allocations == old(db.allocations) && db.attributes == old(db.attributes) && db.events == old(db.events)
    ensures !Refused(outcome) && post.action == Some("approve") && outcome == ChangeCrashed ==>
      var cr := old(db.changeRequests)[c];
      && |post.newValues| == |cr.changes|
      && db.changeRequests == old(db.changeRequests)[c := SavedRequest(cr, post)]
      && db.allocations == old(db.allocations) && db.attributes == old(db.attributes) && db.events == old(db.events)
    ensures !Refused(outcome) && post.action == Some("approve") && outcome != ChangeCrashed ==>
      var cr := old(db.changeRequests)[c];
      && |post.newValues| == |cr.changes|
      && ApprovalSavedAsWritten(c, SavedRequest(cr, post), old(db.changeRequests), old(db.allocations), old(db.attributes),
                                old(db.events), db.changeRequests, db.allocations, db.attributes, db.events)
  {
    if c !in db.changeRequests {
      return ChangeNotFound404;
    }
    if !requesterIsSuperuser {
      return ChangeNotPermitted;
    }
    var parsed := ParseChangeAction(post.action);
    if parsed.None? {
      return ChangeBadRequest;
    }
    var cr := db.changeRequests[c];
    if !FormValid(cr, post, days) {
      return ChangeFormInvalid;
    }
    if parsed.value == Deny {
      SaveChangeRequest(db, c, DeniedRequest(cr, post));
      Emit(db, [CustomerEmail(cr.allocation, "Allocation Change Denied")]);
      return ChangeRedirect;
    }
    outcome := UpdateOrApprove(db, c, cr, parsed.value == Approve, post);
  }

  /**
   * The update and approve actions on request `cr`, stored under `c`, whose
   * form is valid. After the formset check (the change check never
   * refuses), an update of a request that is no longer Pending saves only
   * its notes; otherwise the form and the formset are saved, and an
   * approval goes on to ApproveChange.
   */
  method UpdateOrApprove(db: Db, c: ChangeId, cr: ChangeRequest, approve: bool, post: ChangePost) returns (outcome: ChangeOutcome)
    requires db.Valid() && c in db.changeRequests && db.changeRequests[c] == cr
    modifies db`changeRequests, db`allocations, db`attributes, db`events
    ensures db.Valid()
    ensures outcome == SavedPhaseOutcome(cr, approve, post, old(db.attributes), old(db.allocations))
    ensures Refused(outcome) ==>
      && db.changeRequests == old(db.changeRequests) && db.allocations == old(db.allocations)
      && db.attributes == old(db.attributes) && db.events == old(db.events)
    ensures !Refused(outcome) ==> |post.newValues| == |cr.changes|
    ensures !approve && !Refused(outcome) ==>
      && db.changeRequests == old(db.changeRequests)[c := if cr.status == ChangeStatus.Pending then SavedRequest(cr, post)
                                                         else cr.(notes := post.notes)]
      && db.allocations == old(db.allocations) && db.attributes == old(db.attributes) && db.events == old(db.events)
    ensures approve && outcome == ChangeCrashed ==>
      && db.changeRequests == old(db.changeRequests)[c := SavedRequest(cr, post)]
      && db.allocations == old(db.allocations) && db.attributes == old(db.attributes) && db.events == old(db.events)
    ensures approve && !Refused(outcome) && outcome != ChangeCrashed ==>
      ApprovalSavedAsWritten(c, SavedRequest(cr, post), old(db.changeRequests), old(db.allocations), old(db.attributes),
                             old(db.events), db.changeRequests, db.allocations, db.attributes, db.events)
  {
    if !FormsetValid(db.attributes, cr, post) {
      return ChangeFormsetInvalid;
    }
    if approve {
      outcome := ApproveChange(db, c, post);
    } else {
      UpdateChange(db, c, post);
      outcome := ChangeRedirect;
    }
  }

  /** The update action: only the notes of a request no longer Pending, else the form and the formset. */
  method UpdateChange(db: Db, c: ChangeId, post: ChangePost)
    requires db.Valid() && c in db.changeRequests
    requires |post.newValues| == |db.changeRequests[c].changes|
    modifies db`changeRequests
    ensures db.Valid()
    ensures var cr := old(db.changeRequests)[c];
      db.changeRequests == old(db.changeRequests)[c := if cr.status == ChangeStatus.Pending then SavedRequest(cr, post)
                                                     else cr.(notes := post.notes)]
  {
    var cr := db.changeRequests[c];
    if cr.status != ChangeStatus.Pending {
      SaveChangeRequest(db, c, cr.(notes := post.notes));
    } else {
      SavedRequestKeepsAttributes(cr, post, db.attributes);
      SaveChangeRequest(db, c, SavedRequest(cr, post));
    }
  }

  /**
   * The approve action: the form and the formset are saved; an extension
   * on an allocation without an end date then raises, else ApproveSaved.
   */
  method ApproveChange(db: Db, c: ChangeId, post: ChangePost) returns (outcome: ChangeOutcome)
    requires db.Valid() && c in db.changeRequests
    requires |post.newValues| == |db.changeRequests[c].changes|
    modifies db`changeRequests, db`allocations, db`attributes, db`events
    ensures db.Valid()
    ensures var cr := old(db.changeRequests)[c];
      outcome == ChangeCrashed <==> BoundExtension(cr, post) > 0 && old(db.allocations)[cr.allocation].endDate.None?
    ensures var cr := old(db.changeRequests)[c];
      outcome == ChangeLoopCrashed <==> outcome != ChangeCrashed && cr.changes != []
    ensures outcome == ChangeCrashed || outcome == ChangeLoopCrashed || outcome == ChangeRedirect
    ensures outcome == ChangeCrashed ==>
      var cr := old(db.changeRequests)[c];
      && db.changeRequests == old(db.changeRequests)[c := SavedRequest(cr, post)]
      && db.allocations == old(db.allocations) && db.attributes == old(db.attributes) && db.events == old(db.events)
    ensures outcome != ChangeCrashed ==>
      var cr := old(db.changeRequests)[c];
      ApprovalSavedAsWritten(c, SavedRequest(cr, post), old(db.changeRequests), old(db.allocations), old(db.attributes),
                             old(db.events), db.changeRequests, db.allocations, db.attributes, db.events)
  {
    var cr := db.changeRequests[c];
    var saved := SavedRequest(cr, post);
    SavedRequestKeepsAttributes(cr, post, db.attributes);
    if saved.endDateExtension > 0 && db.allocations[saved.allocation].endDate.None? {
      SaveChangeRequest(db, c, saved);
      return ChangeCrashed;
    }
    // The saved request is written again, Approved, by ApproveSaved.
    var end := ApproveSaved(db, c, saved);
    outcome := if end == LoopCrashed then ChangeLoopCrashed else ChangeRedirect;
  }

  /**
   * The state after approving the saved request `saved` as written (the
   * state before is on the left, after on the right): the request is
   * Approved, the allocation's end date has moved by a positive extension
   * and the first row's attribute holds its new value. With a row the loop
   * then raises and nothing is sent; with none, the approval signal and the
   * customer e-mail are sent.
   */
  predicate ApprovalSavedAsWritten(c: ChangeId, saved: ChangeRequest,
                                   changeRequests: map<ChangeId, ChangeRequest>, allocations: map<AllocationId, Allocation>,
                                   attributes: map<AttributeId, Attribute>, events: seq<Event>,
                                   changeRequests': map<ChangeId, ChangeRequest>, allocations': map<AllocationId, Allocation>,
                                   attributes': map<AttributeId, Attribute>, events': seq<Event>)
  {
    var a := saved.allocation;
    && a in allocations && (saved.endDateExtension > 0 ==> allocations[a].endDate.Some?)
    && (forall i :: 0 <= i < |saved.changes| ==> saved.changes[i].attribute in attributes)
    && changeRequests' == changeRequests[c := saved.(status := ChangeStatus.Approved)]
    && allocations' == Extended(allocations, a, saved.endDateExtension)
    && attributes' == AsWrittenLoopAttributes(attributes, saved.changes)
    && events' == if saved.changes == [] then events + ApprovalMails(c, a) else events
  }

  /** The approval signal and the customer e-mail, in that order. */
  function ApprovalMails(c: ChangeId, a: AllocationId): (r: seq<Event>)
    ensures |r| == 2 && r[0].AllocationChangeApproved? && r[1] == CustomerEmail(a, "Allocation Change Approved")
  {
    [AllocationChangeApproved(ChangeDetailSender, a, c), CustomerEmail(a, "Allocation Change Approved")]
  }

  /**
   * The approval branch as written, once the form and the formset are
   * saved and the end date can be moved: the allocation and the Approved
   * request are saved, then the loop runs; it crashes on the first row, and
   * only a request without rows reaches the approval signal and e-mail.
   */
  method ApproveSaved(db: Db, c: ChangeId, saved: ChangeRequest) returns (end: LoopEnd)
    requires db.Valid() && saved.allocation in db.allocations && ChangesExist(saved, db.attributes)
    requires saved.endDateExtension > 0 ==> db.allocations[saved.allocation].endDate.Some?
    modifies db`changeRequests, db`allocations, db`attributes, db`events
    ensures db.Valid()
    ensures end == LoopCrashed <==> saved.changes != []
    ensures ApprovalSavedAsWritten(c, saved, old(db.changeRequests), old(db.allocations), old(db.attributes), old(db.events),
                                   db.changeRequests, db.allocations, db.attributes, db.events)
  {
    var a := saved.allocation;
    var allocations := Extended(db.allocations, a, saved.endDateExtension);
    var approved := saved.(status := ChangeStatus.Approved);
    assert forall i :: 0 <= i < |saved.changes| ==> saved.changes[i].attribute in db.attributes by {
      forall i | 0 <= i < |saved.changes| ensures saved.changes[i].attribute in db.attributes {
        assert saved.changes[i] in saved.changes;
      }
    }
    var attributes, signals;
    attributes, signals, end := ApplyAttributeChangesAsWritten(db.attributes, saved.changes);
    // The loop raised before the approval signal and e-mail: nothing is sent.
    var mails := if end == LoopCrashed then [] else ApprovalMails(c, a);
    ghost var events0 := db.events;
    Commit(db, c, approved, allocations, attributes, signals, mails);
    assert events0 + signals + mails == events0 + mails;
  }

  /**
   * The state after approving the saved request `saved` with the corrected
   * loop: the request is Approved, the allocation's end date has moved by a
   * positive extension, the attributes hold the rows' new values, and the
   * attribute signals, the approval signal and the customer e-mail were
   * sent, in that order.
   */
  predicate ApprovalSavedCorrected(c: ChangeId, saved: ChangeRequest,
                                   changeRequests: map<ChangeId, ChangeRequest>, allocations: map<AllocationId, Allocation>,
                                   attributes: map<AttributeId, Attribute>, events: seq<Event>,
                                   changeRequests': map<ChangeId, ChangeRequest>, allocations': map<AllocationId, Allocation>,
                                   attributes': map<AttributeId, Attribute>, events': seq<Event>)
  {
    var a := saved.allocation;
    && a in allocations && (saved.endDateExtension > 0 ==> allocations[a].endDate.Some?)
    && (forall i :: 0 <= i < |saved.changes| ==> saved.changes[i].attribute in attributes)
    && changeRequests' == changeRequests[c := saved.(status := ChangeStatus.Approved)]
    && allocations' == Extended(allocations, a, saved.endDateExtension)
    && attributes' == ApplyValues(attributes, saved.changes)
    && events' == events + AttributeSignals(saved.changes, a) + ApprovalMails(c, a)
  }

  /** Without attribute rows the approval as written and the corrected one leave the same state. */
  lemma ApprovalAgreesWithoutRows(c: ChangeId, saved: ChangeRequest,
                                  changeRequests: map<ChangeId, ChangeRequest>, allocations: map<AllocationId, Allocation>,
                                  attributes: map<AttributeId, Attribute>, events: seq<Event>,
                                  changeRequests': map<ChangeId, ChangeRequest>, allocations': map<AllocationId, Allocation>,
                                  attributes': map<AttributeId, Attribute>, events': seq<Event>)
    requires saved.changes == []
    ensures ApprovalSavedAsWritten(c, saved, changeRequests, allocations, attributes, events,
                                   changeRequests', allocations', attributes', events')
        <==> ApprovalSavedCorrected(c, saved, changeRequests, allocations, attributes, events,
                                    changeRequests', allocations', attributes', events')
  {
    assert events + AttributeSignals(saved.changes, saved.allocation) == events;
  }

  /**
   * The approval branch with the corrected loop: the request becomes
   * Approved, the allocation's end date moves by the extension, the
   * attributes take their new values, and every change, then the approval,
   * is signalled and mailed.
   */
  method ApproveSavedCorrected(db: Db, c: ChangeId, saved: ChangeRequest)
    requires db.Valid() && saved.allocation in db.allocations && ChangesExist(saved, db.attributes)
    requires saved.endDateExtension > 0 ==> db.allocations[saved.allocation].endDate.Some?
    modifies db`changeRequests, db`allocations, db`attributes, db`events
    ensures db.Valid()
    ensures ApprovalSavedCorrected(c, saved, old(db.changeRequests), old(db.allocations), old(db.attributes), old(db.events),
                                   db.changeRequests, db.allocations, db.attributes, db.events)
  {
    var a := saved.allocation;
    var allocations := Extended(db.allocations, a, saved.endDateExtension);
    var approved := saved.(status := ChangeStatus.Approved);
    assert forall i :: 0 <= i < |saved.changes| ==> saved.changes[i].attribute in db.attributes by {
      forall i | 0 <= i < |saved.changes| ensures saved.changes[i].attribute in db.attributes {
        assert saved.changes[i] in saved.changes;
      }
    }
    var attributes, signals := ApplyAttributeChanges(db.attributes, saved.changes, a);
    Commit(db, c, approved, allocations, attributes, signals, ApprovalMails(c, a));
  }

  /**
   * Saving the approval at once: the request, the allocations and the
   * attributes each keep their references, then the signals and e-mails
   * are sent.
   */
  method Commit(db: Db, c: ChangeId, cr: ChangeRequest, allocations: map<AllocationId, Allocation>,
                attributes: map<AttributeId, Attribute>, signals: seq<Event>, mails: seq<Event>)
    requires db.Valid()
    requires allocations.Keys == db.allocations.Keys
    requires forall b :: b in allocations ==> allocations[b].project == db.allocations[b].project
    requires attributes.Keys == db.attributes.Keys
    requires forall t :: t in attributes ==> attributes[t].allocation == db.attributes[t].allocation
    requires cr.allocation in db.allocations && ChangesExist(cr, db.attributes)
    modifies db`changeRequests, db`allocations, db`attributes, db`events
    ensures db.Valid()
    ensures db.changeRequests == old(db.changeRequests)[c := cr]
    ensures db.allocations == allocations && db.attributes == attributes
    ensures db.events == old(db.events) + signals + mails
  {
    SaveAllocations(db, allocations);
    SaveChangeRequest(db, c, cr);
    SaveAttributeValues(db, attributes);
    Emit(db, signals);
    Emit(db, mails);
  }
}
