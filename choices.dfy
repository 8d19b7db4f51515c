/**
 * The status and role lookup tables of the project and allocation models.
 * The source stores each as a row with a `name` and compares names as
 * strings; here each table is a datatype whose `Name()` is the row's name,
 * and `...Named` is the `objects.get(name=...)` lookup (None where that
 * lookup raises DoesNotExist).
 */
module Choices {
  import opened Wrappers

  datatype ProjectStatus = New | Active | Archived {
    function Name(): string {
      match this
      case New => "New"
      case Active => "Active"
      case Archived => "Archived"
    }
  }

  datatype ProjectUserRole = User | Manager {
    function Name(): string {
      match this
      case User => "User"
      case Manager => "Manager"
    }
  }

  datatype ProjectUserStatus = Active | PendingRemove | Denied | Removed {
    function Name(): string {
      match this
      case Active => "Active"
      case PendingRemove => "Pending Remove"
      case Denied => "Denied"
      case Removed => "Removed"
    }
  }

  /** The allocation statuses the core names. */
  datatype AllocationStatus =
    | Active | New | RenewalRequested | Denied | Revoked | Expired
    | Paid | PaymentPending | PaymentRequested | PaymentDeclined
  {
    function Name(): string {
      match this
      case Active => "Active"
      case New => "New"
      case RenewalRequested => "Renewal Requested"
      case Denied => "Denied"
      case Revoked => "Revoked"
      case Expired => "Expired"
      case Paid => "Paid"
      case PaymentPending => "Payment Pending"
      case PaymentRequested => "Payment Requested"
      case PaymentDeclined => "Payment Declined"
    }
  }

  datatype AllocationUserStatus = Active | Removed | PendingEULA | DeclinedEULA | Error {
    function Name(): string {
      match this
      case Active => "Active"
      case Removed => "Removed"
      case PendingEULA => "PendingEULA"
      case DeclinedEULA => "DeclinedEULA"
      case Error => "Error"
    }
  }

  /** Status of an allocation change request. */
  datatype ChangeStatus = Pending | Approved | Denied {
    function Name(): string {
      match this
      case Pending => "Pending"
      case Approved => "Approved"
      case Denied => "Denied"
    }
  }

  /** `AllocationStatusChoice.objects.get(name=name)`. */
  function AllocationStatusNamed(name: string): (r: Option<AllocationStatus>)
    ensures r.Some? ==> r.value.Name() == name
    ensures r.None? ==> forall s: AllocationStatus :: s.Name() != name
  {
    if name == "Active" then Some(AllocationStatus.Active)
    else if name == "New" then Some(AllocationStatus.New)
    else if name == "Renewal Requested" then Some(AllocationStatus.RenewalRequested)
    else if name == "Denied" then Some(AllocationStatus.Denied)
    else if name == "Revoked" then Some(AllocationStatus.Revoked)
    else if name == "Expired" then Some(AllocationStatus.Expired)
    else if name == "Paid" then Some(AllocationStatus.Paid)
    else if name == "Payment Pending" then Some(AllocationStatus.PaymentPending)
    else if name == "Payment Requested" then Some(AllocationStatus.PaymentRequested)
    else if name == "Payment Declined" then Some(AllocationStatus.PaymentDeclined)
    else None
  }

  /** Names identify allocation statuses: the lookup inverts `Name()`. */
  lemma AllocationStatusNameRoundTrip(s: AllocationStatus)
    ensures AllocationStatusNamed(s.Name()) == Some(s)
  {
  }

  /** Names identify allocation-user statuses. */
  lemma AllocationUserStatusNameInjective(a: AllocationUserStatus, b: AllocationUserStatus)
    ensures a.Name() == b.Name() <==> a == b
  {
  }
}
