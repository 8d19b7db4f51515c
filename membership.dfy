/**
 * Adding users to and removing them from projects and allocations
 * (coldfront/core/project/utils/user_management_utils.py).
 */
module UserManagement {
  import opened Wrappers
  import opened Choices
  import opened Store

  /** Allocation statuses whose allocations a user leaves together with the project. */
  const CascadeStatusNames: seq<string> := ["Active", "New", "Renewal Requested"]

  /** The allocations of project `p` that removing a user from `p` visits. */
  function CascadeAllocations(allocations: map<AllocationId, Allocation>, p: ProjectId): (S: set<AllocationId>)
    ensures forall a :: a in S <==>
      a in allocations && allocations[a].project == p && allocations[a].status.Name() in CascadeStatusNames
  {
    set a | a in allocations && allocations[a].project == p && allocations[a].status.Name() in CascadeStatusNames
  }

  predicate IsActiveIn(au: map<AllocationUserKey, AllocationUserStatus>, a: AllocationId, u: UserId)
  {
    (a, u) in au && au[(a, u)] == AllocationUserStatus.Active
  }

  /** The allocation-user table once every Active row of `u` in an allocation of `S` is set to Removed. */
  function RemovedFrom(au: map<AllocationUserKey, AllocationUserStatus>, S: set<AllocationId>, u: UserId)
    : map<AllocationUserKey, AllocationUserStatus>
  {
    map k | k in au :: if k.0 in S && k.1 == u && au[k] == AllocationUserStatus.Active then AllocationUserStatus.Removed else au[k]
  }

  /**
   * Removal changes only Active rows of `u` in the allocations of `S`, each
   * to Removed; PendingEULA, DeclinedEULA, Error and Removed rows, other
   * users' rows and other allocations' rows keep their status, and no row
   * is added or dropped.
   */
  lemma RemovedFromFrame(au: map<AllocationUserKey, AllocationUserStatus>, S: set<AllocationId>, u: UserId)
    ensures RemovedFrom(au, S, u).Keys == au.Keys
    ensures forall k :: k in au && RemovedFrom(au, S, u)[k] != au[k] ==>
      k.0 in S && k.1 == u && au[k] == AllocationUserStatus.Active && RemovedFrom(au, S, u)[k] == AllocationUserStatus.Removed
    ensures forall a :: a in S && IsActiveIn(au, a, u) ==> RemovedFrom(au, S, u)[(a, u)] == AllocationUserStatus.Removed
  {
  }

  /** Removing twice is removing once. */
  lemma RemovedFromIdempotent(au: map<AllocationUserKey, AllocationUserStatus>, S: set<AllocationId>, u: UserId)
    ensures RemovedFrom(RemovedFrom(au, S, u), S, u) == RemovedFrom(au, S, u)
  {
  }

  /** Removing over `D` and then over `{a}` is removing over `D + {a}`. */
  lemma RemovedFromStep(au: map<AllocationUserKey, AllocationUserStatus>, D: set<AllocationId>, a: AllocationId, u: UserId)
    ensures RemovedFrom(RemovedFrom(au, D, u), {a}, u) == RemovedFrom(au, D + {a}, u)
    ensures a !in D ==> (IsActiveIn(RemovedFrom(au, D, u), a, u) <==> IsActiveIn(au, a, u))
  {
    var lhs := RemovedFrom(RemovedFrom(au, D, u), {a}, u);
    var rhs := RemovedFrom(au, D + {a}, u);
    assert lhs.Keys == rhs.Keys;
    forall k | k in lhs ensures lhs[k] == rhs[k] { }
  }

  /**
   * add_user_to_project: an existing membership of `u` in `p` gets the new
   * role and status Active (created is false); otherwise a new Active row
   * is created (created is true). One activate signal is sent iff
   * `sendSignals`.
   */
  method AddUserToProject(db: Db, p: ProjectId, u: UserId, role: ProjectUserRole, sendSignals: bool, sender: Sender)
    returns (key: ProjectUserKey, created: bool)
    requires db.Valid() && p in db.projects && u in db.users
    modifies db`projectUsers, db`events
    ensures db.Valid()
    ensures key == (p, u)
    ensures created <==> key !in old(db.projectUsers)
    ensures db.projectUsers == old(db.projectUsers)[key := ProjectUser(role, ProjectUserStatus.Active,
              if created then DefaultEnableNotifications else old(db.projectUsers)[key].enableNotifications)]
    ensures db.events == old(db.events) + (if sendSignals then [ProjectActivateUser(sender, key)] else [])
  {
    key := (p, u);
    created := false;
    if key in db.projectUsers {
      var row := db.projectUsers[key];
      db.projectUsers := db.projectUsers[key := row.(role := role, status := ProjectUserStatus.Active)];
    } else {
      db.projectUsers := db.projectUsers[key := ProjectUser(role, ProjectUserStatus.Active, DefaultEnableNotifications)];
      created := true;
    }
    if sendSignals {
      db.events := db.events + [ProjectActivateUser(sender, key)];
    }
  }

  /**
   * remove_user_from_allocation: the row of `u` in allocation `a` goes from
   * Active to Removed, with one remove signal when `sendSignals`; a row in
   * any other status, or no row, is left alone.
   */
  method RemoveUserFromAllocation(db: Db, a: AllocationId, u: UserId, sendSignals: bool, sender: Sender)
    requires db.Valid()
    modifies db`allocationUsers, db`events
    ensures db.Valid()
    ensures db.allocationUsers == RemovedFrom(old(db.allocationUsers), {a}, u)
    ensures db.events == old(db.events) +
      (if sendSignals && IsActiveIn(old(db.allocationUsers), a, u) then [AllocationRemoveUser(sender, (a, u))] else [])
  {
    var k := (a, u);
    if k in db.allocationUsers && db.allocationUsers[k] == AllocationUserStatus.Active {
      db.allocationUsers := db.allocationUsers[k := AllocationUserStatus.Removed];
      if sendSignals {
        db.events := db.events + [AllocationRemoveUser(sender, k)];
      }
    }
    assert db.allocationUsers == RemovedFrom(old(db.allocationUsers), {a}, u);
  }

  /**
   * remove_user_from_project: the PI, or a user without an Active
   * membership, is not removed (false, nothing changes). Otherwise the
   * membership becomes Removed, a remove signal is sent when `sendSignals`,
   * and the user is removed from every allocation of the project whose
   * status is Active, New or Renewal Requested, with one remove signal per
   * allocation-user row that changed.
   */
  method RemoveUserFromProject(db: Db, p: ProjectId, u: UserId, sendSignals: bool, sender: Sender)
    returns (removed: bool, ghost order: seq<AllocationId>)
    requires db.Valid() && p in db.projects
    modifies db`projectUsers, db`allocationUsers, db`events
    ensures db.Valid()
    ensures removed <==> u != db.projects[p].pi && (p, u) in old(db.projectUsers)
                         && old(db.projectUsers)[(p, u)].status == ProjectUserStatus.Active
    ensures !removed ==> unchanged(db)
    ensures removed ==>
      && db.projectUsers == old(db.projectUsers)[(p, u) := old(db.projectUsers)[(p, u)].(status := ProjectUserStatus.Removed)]
      && Enumerates(order, CascadeAllocations(db.allocations, p))
      && db.allocationUsers == RemovedFrom(old(db.allocationUsers), CascadeAllocations(db.allocations, p), u)
      && db.events == (if sendSignals then old(db.events) + [ProjectRemoveUser(sender, (p, u))]
                                             + RemovalSignals(old(db.allocationUsers), order, u, sender)
                       else old(db.events))
  {
    order := [];
    removed := false;
    var key := (p, u);
    if db.projects[p].pi != u && key in db.projectUsers && db.projectUsers[key].status == ProjectUserStatus.Active {
      MarkProjectUserRemoved(db, key, sendSignals, sender);
      var S := CascadeAllocations(db.allocations, p);
      order := RemoveUserFromAllocations(db, S, u, sendSignals, sender);
      removed := true;
    }
  }

  /** The membership part of remove_user_from_project: status Removed, and the project remove signal. */
  method MarkProjectUserRemoved(db: Db, key: ProjectUserKey, sendSignals: bool, sender: Sender)
    requires db.Valid() && key in db.projectUsers
    modifies db`projectUsers, db`events
    ensures db.Valid()
    ensures db.projectUsers == old(db.projectUsers)[key := old(db.projectUsers)[key].(status := ProjectUserStatus.Removed)]
    ensures db.events == old(db.events) + (if sendSignals then [ProjectRemoveUser(sender, key)] else [])
  {
    db.projectUsers := db.projectUsers[key := db.projectUsers[key].(status := ProjectUserStatus.Removed)];
    if sendSignals {
      db.events := db.events + [ProjectRemoveUser(sender, key)];
    }
  }

  /** The remove-user signals for user `u` when the allocations are visited in `order`. */
  function RemovalSignals(au: map<AllocationUserKey, AllocationUserStatus>, order: seq<AllocationId>, u: UserId, sender: Sender)
    : seq<Event>
  {
    if order == [] then []
    else (if IsActiveIn(au, order[0], u) then [AllocationRemoveUser(sender, (order[0], u))] else [])
         + RemovalSignals(au, order[1..], u, sender)
  }

  lemma {:induction false} RemovalSignalsAppend(au: map<AllocationUserKey, AllocationUserStatus>, order: seq<AllocationId>,
                                                a: AllocationId, u: UserId, sender: Sender)
    ensures RemovalSignals(au, order + [a], u, sender) == RemovalSignals(au, order, u, sender)
      + (if IsActiveIn(au, a, u) then [AllocationRemoveUser(sender, (a, u))] else [])
  {
    if order != [] {
      assert (order + [a])[1..] == order[1..] + [a];
      RemovalSignalsAppend(au, order[1..], a, u, sender);
    }
  }

  /**
   * The cascade signals are exactly one remove signal for each visited
   * allocation where `u` was Active, and nothing else.
   */
  lemma {:induction false} RemovalSignalsExactly(au: map<AllocationUserKey, AllocationUserStatus>, order: seq<AllocationId>,
                                                 u: UserId, sender: Sender)
    ensures forall a :: AllocationRemoveUser(sender, (a, u)) in RemovalSignals(au, order, u, sender) <==>
      a in order && IsActiveIn(au, a, u)
    ensures forall e :: e in RemovalSignals(au, order, u, sender) ==>
      e.AllocationRemoveUser? && e.sender == sender && e.allocationUser.1 == u
  {
    if order != [] {
      RemovalSignalsExactly(au, order[1..], u, sender);
      assert order == [order[0]] + order[1..];
    }
  }

  /**
   * The loop of remove_user_from_project: remove_user_from_allocation on
   * each allocation of `S`, visited in the order `order` the query yields.
   */
  method RemoveUserFromAllocations(db: Db, S: set<AllocationId>, u: UserId, sendSignals: bool, sender: Sender)
    returns (ghost order: seq<AllocationId>)
    requires db.Valid()
    modifies db`allocationUsers, db`events
    ensures db.Valid()
    ensures Enumerates(order, S)
    ensures db.allocationUsers == RemovedFrom(old(db.allocationUsers), S, u)
    ensures db.events == old(db.events) +
      (if sendSignals then RemovalSignals(old(db.allocationUsers), order, u, sender) else [])
  {
    ghost var au0 := db.allocationUsers;
    ghost var head := db.events;
    order := [];
    var todo := S;
    RemovedFromNothing(au0, u);
    while todo != {}
      invariant todo <= S
      invariant db.Valid()
      invariant Enumerates(order, S - todo)
      invariant db.allocationUsers == RemovedFrom(au0, S - todo, u)
      invariant db.events == head + (if sendSignals then RemovalSignals(au0, order, u, sender) else [])
      decreases todo
    {
      var a :| a in todo;
      ghost var done := S - todo;
      RemovedFromStep(au0, done, a, u);
      RemovalSignalsAppend(au0, order, a, u, sender);
      EnumeratesAppend(order, done, a);
      RemoveUserFromAllocation(db, a, u, sendSignals, sender);
      todo := todo - {a};
      order := order + [a];
      assert S - todo == done + {a};
    }
    assert S - todo == S;
  }

  lemma RemovedFromNothing(au: map<AllocationUserKey, AllocationUserStatus>, u: UserId)
    ensures RemovedFrom(au, {}, u) == au
  {
  }

  lemma EnumeratesAppend<T(!new)>(s: seq<T>, S: set<T>, x: T)
    requires Enumerates(s, S) && x !in S
    ensures Enumerates(s + [x], S + {x})
  {
  }

  /**
   * add_user_to_allocation: the row of `u` in `a` gets `status` (Active
   * when none is given), created if missing. `activated` holds iff the row
   * is created Active or changes to Active; the activate signal is sent iff
   * `activated && sendSignalsOnActivate`.
   */
  method AddUserToAllocation(db: Db, a: AllocationId, u: UserId, status: Option<AllocationUserStatus>,
                             sendSignalsOnActivate: bool, sender: Sender)
    returns (ghost activated: bool)
    requires db.Valid() && a in db.allocations && u in db.users
    modifies db`allocationUsers, db`events
    ensures db.Valid()
    ensures db.allocationUsers == old(db.allocationUsers)[(a, u) := status.GetOr(AllocationUserStatus.Active)]
    ensures activated <==> status.GetOr(AllocationUserStatus.Active) == AllocationUserStatus.Active
                           && !IsActiveIn(old(db.allocationUsers), a, u)
    ensures db.events == old(db.events) +
      (if activated && sendSignalsOnActivate then [AllocationActivateUser(sender, (a, u))] else [])
  {
    var target := status.GetOr(AllocationUserStatus.Active);
    var k := (a, u);
    var act := false;
    if k in db.allocationUsers {
      if db.allocationUsers[k] != target {
        db.allocationUsers := db.allocationUsers[k := target];
        if target == AllocationUserStatus.Active {
          act := true;
        }
      }
    } else {
      db.allocationUsers := db.allocationUsers[k := target];
      if target == AllocationUserStatus.Active {
        act := true;
      }
    }
    if sendSignalsOnActivate && act {
      db.events := db.events + [AllocationActivateUser(sender, k)];
    }
    activated := act;
  }
}
