/**
 * The persistent state the core reads and writes: the rows of the project,
 * project-user, allocation, allocation-user, allocation-attribute and
 * change-request tables, held as maps by primary key in one `Db` object,
 * and the signals and e-mails sent so far as an append-only event log.
 *
 * A project user is keyed by its (project, user) pair and an allocation
 * user by its (allocation, user) pair: each pair has at most one row.
 * The key of a project-user row stands for its primary key.
 */
module Store {
  import opened Wrappers
  import opened Choices

  type UserId = nat
  type ProjectId = nat
  type AllocationId = nat
  type AttributeId = nat
  type ChangeId = nat

  /** Dates are day numbers. */
  type Day = int

  type ProjectUserKey = (ProjectId, UserId)
  type AllocationUserKey = (AllocationId, UserId)

  type ResourceId = nat

  /** The fields of a user account (and its profile) that the core reads. */
  datatype UserRecord = UserRecord(username: string, email: string, isPi: bool, isSuperuser: bool)

  datatype Project = Project(
    pi: UserId,
    status: ProjectStatus,
    projectCode: string,
    institution: string,
    needsReview: bool)

  datatype ProjectUser = ProjectUser(role: ProjectUserRole, status: ProjectUserStatus, enableNotifications: bool)

  /** `hasEula` stands for a truthy `allocation.get_eula()`. */
  datatype Allocation = Allocation(
    project: ProjectId,
    resources: set<ResourceId>,
    status: AllocationStatus,
    startDate: Option<Day>,
    endDate: Option<Day>,
    isLocked: bool,
    hasEula: bool)

  datatype Attribute = Attribute(allocation: AllocationId, value: string)

  /** One attribute change request row: the attribute and the value asked for. */
  datatype AttributeChange = AttributeChange(attribute: AttributeId, newValue: string)

  datatype ChangeRequest = ChangeRequest(
    allocation: AllocationId,
    status: ChangeStatus,
    endDateExtension: int,
    justification: string,
    notes: string,
    changes: seq<AttributeChange>)

  /** The `sender` of a signal: the view class passed as `obj_class`, if any. */
  type Sender = Option<string>

  /** A signal sent or an e-mail handed to the mailer. */
  datatype Event =
    | ProjectActivateUser(sender: Sender, projectUser: ProjectUserKey)
    | ProjectRemoveUser(sender: Sender, projectUser: ProjectUserKey)
    | ProjectArchive(sender: Sender, project: ProjectId)
    | AllocationActivateUser(sender: Sender, allocationUser: AllocationUserKey)
    | AllocationRemoveUser(sender: Sender, allocationUser: AllocationUserKey)
    | AllocationActivate(sender: Sender, allocation: AllocationId)
    | AllocationDisable(sender: Sender, allocation: AllocationId)
    | AllocationNew(sender: Sender, allocation: AllocationId)
    | AllocationAttributeChanged(sender: Sender, attribute: AttributeId, allocation: AllocationId)
    | AllocationChangeApproved(sender: Sender, allocation: AllocationId, change: ChangeId)
    | AllocationUserActivated(allocationUser: AllocationUserKey)
    | CustomerEmail(allocation: AllocationId, subject: string)
    | AdminEmail(allocation: AllocationId, subject: string)
    | EulaEmail(allocationUser: AllocationUserKey, subject: string)

  /** The default of `ProjectUser.enable_notifications` for a row created without it. */
  const DefaultEnableNotifications := true

  /** Every attribute change of `c` names an existing attribute. */
  predicate ChangesExist(c: ChangeRequest, attributes: map<AttributeId, Attribute>)
  {
    forall ch :: ch in c.changes ==> ch.attribute in attributes
  }

  /** `s` lists the elements of `S`, each once, in some order. */
  ghost predicate Enumerates<T(!new)>(s: seq<T>, S: set<T>)
  {
    && (forall i, j :: 0 <= i < j < |s| ==> s[i] != s[j])
    && (forall x :: x in s <==> x in S)
  }

  class Db {
    var users: map<UserId, UserRecord>
    var projects: map<ProjectId, Project>
    var projectUsers: map<ProjectUserKey, ProjectUser>
    var allocations: map<AllocationId, Allocation>
    var allocationUsers: map<AllocationUserKey, AllocationUserStatus>
    var attributes: map<AttributeId, Attribute>
    var changeRequests: map<ChangeId, ChangeRequest>
    var events: seq<Event>

    /** Referential integrity: every foreign key names an existing row. */
    ghost predicate Valid()
      reads this
    {
      && (forall p :: p in projects ==> projects[p].pi in users)
      && (forall k :: k in projectUsers ==> k.0 in projects && k.1 in users)
      && (forall a :: a in allocations ==> allocations[a].project in projects)
      && (forall k :: k in allocationUsers ==> k.0 in allocations && k.1 in users)
      && (forall t :: t in attributes ==> attributes[t].allocation in allocations)
      && (forall c :: c in changeRequests ==> changeRequests[c].allocation in allocations)
      && (forall c :: c in changeRequests ==> ChangesExist(changeRequests[c], attributes))
    }

    constructor ()
      ensures Valid()
      ensures users == map[] && projects == map[] && projectUsers == map[]
      ensures allocations == map[] && allocationUsers == map[]
      ensures attributes == map[] && changeRequests == map[] && events == []
    {
      users, projects, projectUsers := map[], map[], map[];
      allocations, allocationUsers := map[], map[];
      attributes, changeRequests, events := map[], map[], [];
    }
  }
}
