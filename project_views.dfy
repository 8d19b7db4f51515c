/**
 * The project views that change membership and project state
 * (coldfront/core/project/views/): archiving a project, updating one
 * member's role and notification flag, the e-mail notification toggle,
 * and the posts of the remove-users and add-users pages.
 */
module ProjectViews {
  import opened Wrappers
  import opened Text
  import opened Choices
  import opened Store
  import opened EulaUtils
  import opened ViewHelpers
  import opened ProjectUtils
  import opened UserManagement

  // ---------------------------------------------------------------- permission test and gate

  /** What a project view's test_func ends in: the 404 of its project lookup, a refusal, or a pass. */
  datatype TestOutcome = TestNotFound404 | TestFails | TestPasses

  /** The test_func the project views share: look the project up, then user_is_pi_or_manager. */
  function PiOrManagerTest(users: map<UserId, UserRecord>, projects: map<ProjectId, Project>,
                           pu: map<ProjectUserKey, ProjectUser>, p: ProjectId, u: UserId): (r: TestOutcome)
    requires u in users
    ensures r == TestNotFound404 <==> p !in projects
    ensures r == TestPasses <==> p in projects && (users[u].isSuperuser || projects[p].pi == u || IsActiveManager(pu, p, u))
  {
    if p !in projects then TestNotFound404
    else if UserIsPiOrManager(users, projects, pu, p, u) then TestPasses
    else TestFails
  }

  datatype Gate = GateNotFound404 | GateArchived | GateNotPermitted | GateProceeds

  /**
   * dispatch of the remove-users and add-users views. Their own dispatch
   * looks at the project before the inherited one runs test_func, so an
   * archived project is turned away before anybody's permission is asked.
   */
  function MembershipGate(users: map<UserId, UserRecord>, projects: map<ProjectId, Project>,
                          pu: map<ProjectUserKey, ProjectUser>, p: ProjectId, u: UserId): (r: Gate)
    requires u in users
    ensures r == GateNotFound404 <==> p !in projects
    ensures r == GateArchived <==> p in projects && ProjectIsArchived(projects[p].status)
    ensures r == GateProceeds <==> p in projects && !ProjectIsArchived(projects[p].status)
                                   && PiOrManagerTest(users, projects, pu, p, u) == TestPasses
  {
    if p !in projects then GateNotFound404
    else if ProjectIsArchived(projects[p].status) then GateArchived
    else if PiOrManagerTest(users, projects, pu, p, u) == TestPasses then GateProceeds
    else GateNotPermitted
  }

  /** Not even a superuser passes the gate of an archived project, and a refused user only sees the refusal on a live project. */
  lemma MembershipGateOrder(users: map<UserId, UserRecord>, projects: map<ProjectId, Project>,
                            pu: map<ProjectUserKey, ProjectUser>, p: ProjectId, u: UserId)
    requires u in users && p in projects
    ensures projects[p].status == ProjectStatus.Archived ==> MembershipGate(users, projects, pu, p, u) == GateArchived
    ensures MembershipGate(users, projects, pu, p, u) == GateNotPermitted <==>
      projects[p].status != ProjectStatus.Archived && PiOrManagerTest(users, projects, pu, p, u) == TestFails
  {
    ProjectIsArchivedIff(projects[p].status);
  }

  // ---------------------------------------------------------------- archive

  const ArchiveSender: Sender := Some("ProjectArchiveProjectView")

  /** An allocation as archiving its project leaves it: Expired with end date `now` if it was Active. */
  function ExpireIfActive(x: Allocation, p: ProjectId, now: Day): Allocation
  {
    if x.project == p && x.status.Name() == "Active" then x.(status := AllocationStatus.Expired, endDate := Some(now)) else x
  }

  /** The allocation table once the Active allocations of `p` are expired. */
  function ExpiredOnArchive(allocations: map<AllocationId, Allocation>, p: ProjectId, now: Day): (r: map<AllocationId, Allocation>)
    ensures r.Keys == allocations.Keys
    ensures forall a :: a in r ==> r[a].project == allocations[a].project && r[a].resources == allocations[a].resources
    ensures forall a :: a in r && r[a].project == p ==> r[a].status != AllocationStatus.Active
  {
    map a | a in allocations :: ExpireIfActive(allocations[a], p, now)
  }

  /**
   * Archiving expires every Active allocation of the project, ending it at
   * `now`; allocations of other projects and in other statuses keep every
   * field, and a second archive changes nothing more.
   */
  lemma ExpiredOnArchiveRules(allocations: map<AllocationId, Allocation>, p: ProjectId, now: Day)
    ensures var r := ExpiredOnArchive(allocations, p, now);
      && (forall a :: a in allocations && allocations[a].project == p && allocations[a].status == AllocationStatus.Active ==>
            r[a] == allocations[a].(status := AllocationStatus.Expired, endDate := Some(now)))
      && (forall a :: a in allocations && (allocations[a].project != p || allocations[a].status != AllocationStatus.Active) ==>
            r[a] == allocations[a])
      && ExpiredOnArchive(r, p, now) == r
  {
  }

  /** The loop over `project.allocation_set.filter(status__name="Active")`. */
  method ExpireActiveAllocations(allocations: map<AllocationId, Allocation>, p: ProjectId, now: Day)
    returns (r: map<AllocationId, Allocation>)
    ensures r == ExpiredOnArchive(allocations, p, now)
  {
    var active := set a | a in allocations && allocations[a].project == p && allocations[a].status.Name() == "Active";
    var todo := active;
    r := allocations;
    while todo != {}
      invariant todo <= active
      invariant r.Keys == allocations.Keys
      invariant forall a :: a in r ==> r[a] == if a in todo then allocations[a] else ExpireIfActive(allocations[a], p, now)
      decreases todo
    {
      var a :| a in todo;
      r := r[a := allocations[a].(status := AllocationStatus.Expired, endDate := Some(now))];
      todo := todo - {a};
    }
  }

  datatype ArchiveOutcome = ArchiveNotFound404 | ArchiveRedirect

  /**
   * ProjectArchiveProjectView.post at time `now`: the project becomes
   * Archived, project_archive is sent once, and its Active allocations
   * expire.
   */
  method ArchiveProjectPost(db: Db, p: ProjectId, now: Day) returns (outcome: ArchiveOutcome)
    requires db.Valid()
    modifies db`projects, db`allocations, db`events
    ensures db.Valid()
    ensures outcome == ArchiveNotFound404 <==> p !in old(db.projects)
    ensures outcome == ArchiveNotFound404 ==> unchanged(db)
    ensures outcome == ArchiveRedirect ==>
      && db.projects == old(db.projects)[p := old(db.projects)[p].(status := ProjectStatus.Archived)]
      && ProjectIsArchived(db.projects[p].status)
      && db.allocations == ExpiredOnArchive(old(db.allocations), p, now)
      && db.events == old(db.events) + [ProjectArchive(ArchiveSender, p)]
  {
    if p !in db.projects {
      return ArchiveNotFound404;
    }
    db.projects := db.projects[p := db.projects[p].(status := ProjectStatus.Archived)];
    db.events := db.events + [ProjectArchive(ArchiveSender, p)];
    var expired := ExpireActiveAllocations(db.allocations, p, now);
    ExpiredOnArchiveRules(db.allocations, p, now);
    db.allocations := expired;
    outcome := ArchiveRedirect;
  }

  // ---------------------------------------------------------------- project user detail

  /** The cleaned ProjectUserUpdateForm: the role chosen and the notification box. */
  datatype UserUpdateForm = UserUpdateForm(role: ProjectUserRole, enableNotifications: bool)

  /**
   * How ProjectUserDetail ends. `DetailNoResponse` is the post falling off
   * its end, for a member of another project or an invalid form, where the
   * view returns no response at all.
   */
  datatype DetailOutcome = DetailNotFound404 | DetailNotPermitted | DetailArchived | DetailPiUnchangeable
                         | DetailUpdated | DetailNoResponse

  /** The membership saved by a valid form: a Manager always gets notifications, any other role the form's choice. */
  function UpdatedMember(row: ProjectUser, form: UserUpdateForm): (r: ProjectUser)
    ensures r.role == form.role && r.status == row.status
    ensures r.enableNotifications <==> form.role == ProjectUserRole.Manager || form.enableNotifications
  {
    row.(role := form.role, enableNotifications := if form.role.Name() == "Manager" then true else form.enableNotifications)
  }

  /**
   * test_func and then ProjectUserDetail.post on membership `key` of
   * project `p`, with the cleaned form (None when it is invalid).
   */
  function UserDetailDecision(users: map<UserId, UserRecord>, projects: map<ProjectId, Project>,
                              pu: map<ProjectUserKey, ProjectUser>, requester: UserId, p: ProjectId,
                              key: ProjectUserKey, form: Option<UserUpdateForm>): (r: DetailOutcome)
    requires requester in users
    ensures r == DetailNotFound404 <==> p !in projects
    ensures r == DetailNotPermitted <==> PiOrManagerTest(users, projects, pu, p, requester) == TestFails
    ensures r == DetailArchived <==>
      PiOrManagerTest(users, projects, pu, p, requester) == TestPasses && projects[p].status == ProjectStatus.Archived
    ensures r == DetailUpdated <==>
      && PiOrManagerTest(users, projects, pu, p, requester) == TestPasses && projects[p].status != ProjectStatus.Archived
      && key.0 == p && key in pu && key.1 != projects[p].pi && form.Some?
    ensures r == DetailPiUnchangeable ==> key == (p, projects[p].pi)
  {
    ProjectIsArchivedIff(if p in projects then projects[p].status else ProjectStatus.New);
    match PiOrManagerTest(users, projects, pu, p, requester)
    case TestNotFound404 => DetailNotFound404
    case TestFails => DetailNotPermitted
    case TestPasses =>
      if ProjectIsArchived(projects[p].status) then DetailArchived
      else if !(key.0 == p && key in pu) then DetailNoResponse
      else if key.1 == projects[p].pi then DetailPiUnchangeable
      else if form.None? then DetailNoResponse
      else DetailUpdated
  }

  /** ProjectUserDetail (test_func, then post): only an update stores anything, and only the one membership. */
  method ProjectUserDetailPost(db: Db, requester: UserId, p: ProjectId, key: ProjectUserKey, form: Option<UserUpdateForm>)
    returns (outcome: DetailOutcome)
    requires db.Valid() && requester in db.users
    modifies db`projectUsers
    ensures db.Valid()
    ensures outcome == UserDetailDecision(old(db.users), old(db.projects), old(db.projectUsers), requester, p, key, form)
    ensures outcome == DetailUpdated ==>
      db.projectUsers == old(db.projectUsers)[key := UpdatedMember(old(db.projectUsers)[key], form.value)]
    ensures outcome != DetailUpdated ==> db.projectUsers == old(db.projectUsers)
  {
    outcome := UserDetailDecision(db.users, db.projects, db.projectUsers, requester, p, key, form);
    if outcome == DetailUpdated {
      db.projectUsers := db.projectUsers[key := UpdatedMember(db.projectUsers[key], form.value)];
    }
  }

  // ---------------------------------------------------------------- e-mail notification toggle

  datatype NotificationResponse = NotificationNotFound404 | Response(body: string, status: nat)

  /**
   * project_update_email_notification: the response, and the new value of
   * the membership's notification flag (None when it is not written).
   * `key` is the posted `user_project_id`, None when it is missing.
   */
  function NotificationDecision(users: map<UserId, UserRecord>, projects: map<ProjectId, Project>,
                                pu: map<ProjectUserKey, ProjectUser>, requester: UserId, isPost: bool,
                                key: Option<ProjectUserKey>, checked: Option<string>): (r: (NotificationResponse, Option<bool>))
    requires requester in users
    requires forall k :: k in pu ==> k.0 in projects
    ensures r.0 == Response("no POST", 400) <==> !isPost
    ensures r.0 == NotificationNotFound404 <==> isPost && (key.None? || key.value !in pu)
    ensures r.0 == Response("not allowed", 403) <==>
      isPost && key.Some? && key.value in pu
      && !(UserIsPiOrManager(users, projects, pu, key.value.0, requester) || key.value.1 == requester)
    ensures r.1 == Some(true) <==> r.0 == Response("checked", 200)
    ensures r.1 == Some(false) <==> r.0 == Response("unchecked", 200)
    ensures r.1.Some? ==> isPost && key.Some? && key.value in pu
    ensures r.1 == Some(true) <==> r.1.Some? && checked == Some("true")
    ensures r.1 == Some(false) <==> r.1.Some? && checked == Some("false")
    ensures r.0 == Response("no checked", 400) <==>
      r.0.Response? && r.0.status == 400 && r.0 != Response("no POST", 400)
  {
    if !isPost then (Response("no POST", 400), None)
    else if key.None? || key.value !in pu then (NotificationNotFound404, None)
    else if UserIsPiOrManager(users, projects, pu, key.value.0, requester) || key.value.1 == requester then
      if checked == Some("true") then (Response("checked", 200), Some(true))
      else if checked == Some("false") then (Response("unchecked", 200), Some(false))
      else (Response("no checked", 400), None)
    else (Response("not allowed", 403), None)
  }

  /** An allowed requester toggles exactly as asked, and anything but "true" or "false" leaves the flag alone. */
  lemma NotificationAllowed(users: map<UserId, UserRecord>, projects: map<ProjectId, Project>,
                            pu: map<ProjectUserKey, ProjectUser>, requester: UserId, key: ProjectUserKey, checked: Option<string>)
    requires requester in users
    requires forall k :: k in pu ==> k.0 in projects
    requires key in pu && (key.1 == requester || users[requester].isSuperuser)
    ensures var r := NotificationDecision(users, projects, pu, requester, true, Some(key), checked);
      && (checked == Some("true") ==> r == (Response("checked", 200), Some(true)))
      && (checked == Some("false") ==> r == (Response("unchecked", 200), Some(false)))
      && (checked != Some("true") && checked != Some("false") ==> r == (Response("no checked", 400), None))
  {
  }

  method UpdateEmailNotification(db: Db, requester: UserId, isPost: bool, key: Option<ProjectUserKey>, checked: Option<string>)
    returns (response: NotificationResponse)
    requires db.Valid() && requester in db.users
    modifies db`projectUsers
    ensures db.Valid()
    ensures var d := NotificationDecision(old(db.users), old(db.projects), old(db.projectUsers), requester, isPost, key, checked);
      && response == d.0
      && db.projectUsers == if d.1.Some? then old(db.projectUsers)[key.value := old(db.projectUsers)[key.value].(enableNotifications := d.1.value)]
                            else old(db.projectUsers)
  {
    var d := NotificationDecision(db.users, db.projects, db.projectUsers, requester, isPost, key, checked);
    response := d.0;
    if d.1.Some? {
      db.projectUsers := db.projectUsers[key.value := db.projectUsers[key.value].(enableNotifications := d.1.value)];
    }
  }

  // ---------------------------------------------------------------- remove users

  const RemoveUsersSender: Sender := Some("ProjectRemoveUsersView")

  /**
   * get_users_to_remove over `listed`, the project's Active members in the
   * order of the query (by username): everybody but the requester and the PI.
   */
  function UsersToRemove(listed: seq<UserId>, requester: UserId, pi: UserId): (r: seq<UserId>)
    ensures forall v :: v in r <==> v in listed && v != requester && v != pi
    ensures |r| <= |listed|
  {
    if listed == [] then []
    else (if listed[0] != requester && listed[0] != pi then [listed[0]] else []) + UsersToRemove(listed[1..], requester, pi)
  }

  /** The candidates keep the query's order. */
  lemma {:induction false} UsersToRemoveKeepsOrder(listed: seq<UserId>, requester: UserId, pi: UserId)
    ensures IsSubsequence(UsersToRemove(listed, requester, pi), listed)
  {
    if listed != [] {
      UsersToRemoveKeepsOrder(listed[1..], requester, pi);
      var rest := UsersToRemove(listed[1..], requester, pi);
      if listed[0] != requester && listed[0] != pi {
        assert ([listed[0]] + rest)[1..] == rest;
      } else {
        assert UsersToRemove(listed, requester, pi) == rest;
        SubsequenceOfTail(rest, listed);
      }
    }
  }

  /** Over the project's Active members, the candidates are the Active members other than the requester and the PI. */
  lemma UsersToRemoveMembers(pu: map<ProjectUserKey, ProjectUser>, p: ProjectId, listed: seq<UserId>,
                             requester: UserId, pi: UserId)
    requires forall v :: v in listed <==> IsActiveMember(pu, p, v)
    ensures forall v :: v in UsersToRemove(listed, requester, pi) <==> IsActiveMember(pu, p, v) && v != requester && v != pi
  {
  }

  /** One form of the remove formset: the user it shows and its `selected` box. */
  datatype RemoveForm = RemoveForm(user: UserId, selected: bool)

  /** The success message of the remove-users post. */
  function RemovedUsersMessage(count: nat): (m: string)
    ensures count == 1 ==> m == "Removed 1 user from project."
    ensures count != 1 ==> m == "Removed " + NatToString(count) + " users from project."
  {
    if count == 1 then "Removed " + NatToString(count) + " user from project."
    else "Removed " + NatToString(count) + " users from project."
  }

  /** The users remove_user_from_project accepts: not the PI, and an Active member of `p`. */
  predicate Removable(projects: map<ProjectId, Project>, pu: map<ProjectUserKey, ProjectUser>, p: ProjectId, v: UserId)
    requires p in projects
  {
    v != projects[p].pi && (p, v) in pu && pu[(p, v)].status == ProjectUserStatus.Active
  }

  /** The users a valid formset removes: the selected ones that were removable before the post. */
  function RemovedUsers(projects: map<ProjectId, Project>, pu: map<ProjectUserKey, ProjectUser>, p: ProjectId,
                        forms: seq<RemoveForm>): (R: set<UserId>)
    requires p in projects
    ensures forall v :: v in R ==> Removable(projects, pu, p, v)
  {
    set i | 0 <= i < |forms| && forms[i].selected && Removable(projects, pu, p, forms[i].user) :: forms[i].user
  }

  /**
   * A user is removed exactly when some selected form names them and they
   * were removable before the post; a user on several forms counts once.
   */
  lemma RemovedUsersMeaning(projects: map<ProjectId, Project>, pu: map<ProjectUserKey, ProjectUser>, p: ProjectId,
                            forms: seq<RemoveForm>)
    requires p in projects
    ensures forall v :: v in RemovedUsers(projects, pu, p, forms) <==> Removable(projects, pu, p, v) && RemoveForm(v, true) in forms
    ensures |RemovedUsers(projects, pu, p, forms)| <= |forms|
  {
    var R := RemovedUsers(projects, pu, p, forms);
    forall v | Removable(projects, pu, p, v) && RemoveForm(v, true) in forms
      ensures v in R
    {
      var i :| 0 <= i < |forms| && forms[i] == RemoveForm(v, true);
    }
    SetOfIndexed(forms, R);
  }

  /** A set of values picked from a sequence is no larger than the sequence. */
  lemma {:induction false} SetOfIndexed(forms: seq<RemoveForm>, R: set<UserId>)
    requires forall v :: v in R ==> exists i :: 0 <= i < |forms| && forms[i].user == v
    ensures |R| <= |forms|
  {
    if forms != [] {
      var last := forms[|forms| - 1];
      var init := forms[..|forms| - 1];
      var R' := R - {last.user};
      forall v | v in R' ensures exists i :: 0 <= i < |init| && init[i].user == v {
        var i :| 0 <= i < |forms| && forms[i].user == v;
        assert i < |init| && init[i] == forms[i];
      }
      SetOfIndexed(init, R');
    } else {
      assert forall v :: v !in R;
    }
  }

  /** The membership table once the users of `R` have left `p`. */
  function MembersRemoved(pu: map<ProjectUserKey, ProjectUser>, p: ProjectId, R: set<UserId>): (r: map<ProjectUserKey, ProjectUser>)
    ensures r.Keys == pu.Keys
  {
    map k | k in pu :: if k.0 == p && k.1 in R then pu[k].(status := ProjectUserStatus.Removed) else pu[k]
  }

  /** The allocation-user table once the users of `R` have left the allocations of `S`. */
  function AllocationUsersRemoved(au: map<AllocationUserKey, AllocationUserStatus>, S: set<AllocationId>, R: set<UserId>)
    : (r: map<AllocationUserKey, AllocationUserStatus>)
    ensures r.Keys == au.Keys
  {
    map k | k in au :: if k.0 in S && k.1 in R && au[k] == AllocationUserStatus.Active then AllocationUserStatus.Removed else au[k]
  }

  lemma MembersRemovedStep(pu: map<ProjectUserKey, ProjectUser>, p: ProjectId, R: set<UserId>, v: UserId)
    requires (p, v) in pu
    ensures MembersRemoved(pu, p, R)[(p, v) := MembersRemoved(pu, p, R)[(p, v)].(status := ProjectUserStatus.Removed)]
            == MembersRemoved(pu, p, R + {v})
  {
    var lhs := MembersRemoved(pu, p, R)[(p, v) := MembersRemoved(pu, p, R)[(p, v)].(status := ProjectUserStatus.Removed)];
    var rhs := MembersRemoved(pu, p, R + {v});
    assert lhs.Keys == rhs.Keys;
    forall k | k in lhs ensures lhs[k] == rhs[k] { }
  }

  lemma AllocationUsersRemovedStep(au: map<AllocationUserKey, AllocationUserStatus>, S: set<AllocationId>, R: set<UserId>, v: UserId)
    ensures RemovedFrom(AllocationUsersRemoved(au, S, R), S, v) == AllocationUsersRemoved(au, S, R + {v})
  {
    var lhs := RemovedFrom(AllocationUsersRemoved(au, S, R), S, v);
    var rhs := AllocationUsersRemoved(au, S, R + {v});
    assert lhs.Keys == rhs.Keys;
    forall k | k in lhs ensures lhs[k] == rhs[k] { }
  }

  lemma MembersRemovedNothing(pu: map<ProjectUserKey, ProjectUser>, p: ProjectId)
    ensures MembersRemoved(pu, p, {}) == pu
  {
  }

  lemma AllocationUsersRemovedNothing(au: map<AllocationUserKey, AllocationUserStatus>, S: set<AllocationId>)
    ensures AllocationUsersRemoved(au, S, {}) == au
  {
  }

  lemma RemovedUsersSnoc(projects: map<ProjectId, Project>, pu: map<ProjectUserKey, ProjectUser>, p: ProjectId,
                         forms: seq<RemoveForm>, i: nat)
    requires p in projects && i < |forms|
    ensures RemovedUsers(projects, pu, p, forms[..i + 1]) ==
      RemovedUsers(projects, pu, p, forms[..i]) +
      (if forms[i].selected && Removable(projects, pu, p, forms[i].user) then {forms[i].user} else {})
  {
    assert forms[..i + 1] == forms[..i] + [forms[i]];
  }

  /**
   * One selected form of the remove loop, with the users of `R` already
   * removed: remove_user_from_project removes `v` exactly when `v` was
   * removable before the loop and is not in `R` yet.
   */
  method RemoveOne(db: Db, p: ProjectId, v: UserId, ghost pu0: map<ProjectUserKey, ProjectUser>,
                   ghost au0: map<AllocationUserKey, AllocationUserStatus>, ghost S: set<AllocationId>, ghost R: set<UserId>)
    returns (removed: bool)
    requires db.Valid() && p in db.projects && S == CascadeAllocations(db.allocations, p)
    requires db.projectUsers == MembersRemoved(pu0, p, R) && db.allocationUsers == AllocationUsersRemoved(au0, S, R)
    modifies db`projectUsers, db`allocationUsers, db`events
    ensures db.Valid()
    ensures removed <==> Removable(db.projects, pu0, p, v) && v !in R
    ensures var R' := if removed then R + {v} else R;
      db.projectUsers == MembersRemoved(pu0, p, R') && db.allocationUsers == AllocationUsersRemoved(au0, S, R')
    ensures old(db.events) <= db.events
  {
    if (p, v) in db.projectUsers {
      MembersRemovedStep(pu0, p, R, v);
    }
    AllocationUsersRemovedStep(au0, S, R, v);
    ghost var order;
    removed, order := RemoveUserFromProject(db, p, v, true, RemoveUsersSender);
  }

  /** The loop over the forms of a valid remove formset, counting the users removed. */
  method RemoveSelected(db: Db, p: ProjectId, fs: seq<RemoveForm>) returns (count: nat)
    requires db.Valid() && p in db.projects
    modifies db`projectUsers, db`allocationUsers, db`events
    ensures db.Valid()
    ensures var R := RemovedUsers(old(db.projects), old(db.projectUsers), p, fs);
      && count == |R|
      && db.projectUsers == MembersRemoved(old(db.projectUsers), p, R)
      && db.allocationUsers == AllocationUsersRemoved(old(db.allocationUsers), CascadeAllocations(old(db.allocations), p), R)
      && old(db.events) <= db.events
  {
    count := 0;
    ghost var projects0, pu0, au0, e0 := db.projects, db.projectUsers, db.allocationUsers, db.events;
    ghost var S := CascadeAllocations(db.allocations, p);
    ghost var R: set<UserId> := {};
    MembersRemovedNothing(pu0, p);
    AllocationUsersRemovedNothing(au0, S);
    for i := 0 to |fs|
      invariant db.Valid()
      invariant db.projects == projects0 && S == CascadeAllocations(db.allocations, p)
      invariant R == RemovedUsers(projects0, pu0, p, fs[..i])
      invariant count == |R|
      invariant db.projectUsers == MembersRemoved(pu0, p, R)
      invariant db.allocationUsers == AllocationUsersRemoved(au0, S, R)
      invariant e0 <= db.events
    {
      RemovedUsersSnoc(projects0, pu0, p, fs, i);
      if fs[i].selected {
        var removed := RemoveOne(db, p, fs[i].user, pu0, au0, S, R);
        if removed {
          count := count + 1;
          R := R + {fs[i].user};
        }
      }
    }
    assert fs[..|fs|] == fs;
  }

  /**
   * ProjectRemoveUsersView.post on project `p`, with the cleaned forms of
   * the remove formset (None when it is invalid). `count` is
   * remove_users_count: the number of selected users remove_user_from_project
   * removed, each user counted once.
   */
  method RemoveUsersPost(db: Db, p: ProjectId, forms: Option<seq<RemoveForm>>) returns (message: Option<string>, count: nat)
    requires db.Valid() && p in db.projects
    modifies db`projectUsers, db`allocationUsers, db`events
    ensures db.Valid()
    ensures forms.None? ==> message.None? && count == 0 && unchanged(db)
    ensures forms.Some? ==>
      var R := RemovedUsers(old(db.projects), old(db.projectUsers), p, forms.value);
      && count == |R|
      && message == Some(RemovedUsersMessage(count))
      && db.projectUsers == MembersRemoved(old(db.projectUsers), p, R)
      && db.allocationUsers == AllocationUsersRemoved(old(db.allocationUsers), CascadeAllocations(old(db.allocations), p), R)
      && old(db.events) <= db.events
  {
    if forms.None? {
      return None, 0;
    }
    count := RemoveSelected(db, p, forms.value);
    message := Some(RemovedUsersMessage(count));
  }

  // ---------------------------------------------------------------- add users

  const AddUsersSender: Sender := Some("ProjectAddUsersView")

  /** One form of the user formset: the user it shows, the role chosen and its `selected` box. */
  datatype AddForm = AddForm(user: UserId, role: ProjectUserRole, selected: bool)

  /**
   * The allocation-user table after the inner loop of the add-users post
   * has added `u` to the allocations of `order`, one after the other, each
   * with the status determine_eula_status_for_allocation_user gives at
   * that moment.
   */
  function AllocationsAdded(au: map<AllocationUserKey, AllocationUserStatus>, allocations: map<AllocationId, Allocation>,
                            eulaEnabled: bool, order: seq<AllocationId>, u: UserId): (r: map<AllocationUserKey, AllocationUserStatus>)
    requires forall i :: 0 <= i < |order| ==> order[i] in allocations
    ensures au.Keys <= r.Keys
    ensures forall k :: k in r && k.1 != u ==> k in au && r[k] == au[k]
    decreases |order|
  {
    if order == [] then au
    else
      var prev := AllocationsAdded(au, allocations, eulaEnabled, order[..|order| - 1], u);
      var a := order[|order| - 1];
      prev[(a, u) := DetermineEulaStatus(eulaEnabled, allocations[a], prev, a, u)]
  }

  /** The activate signals of that loop: one for each row that becomes Active. */
  function AllocationSignals(au: map<AllocationUserKey, AllocationUserStatus>, allocations: map<AllocationId, Allocation>,
                             eulaEnabled: bool, order: seq<AllocationId>, u: UserId): seq<Event>
    requires forall i :: 0 <= i < |order| ==> order[i] in allocations
    decreases |order|
  {
    if order == [] then []
    else
      var prev := AllocationsAdded(au, allocations, eulaEnabled, order[..|order| - 1], u);
      var a := order[|order| - 1];
      AllocationSignals(au, allocations, eulaEnabled, order[..|order| - 1], u)
      + (if DetermineEulaStatus(eulaEnabled, allocations[a], prev, a, u) == AllocationUserStatus.Active && !IsActiveIn(prev, a, u)
         then [AllocationActivateUser(AddUsersSender, (a, u))] else [])
  }

  /** The loop sends at most one signal per visited allocation, each an activation of `u`. */
  lemma {:induction false} AllocationSignalsActivate(au: map<AllocationUserKey, AllocationUserStatus>,
                                                     allocations: map<AllocationId, Allocation>,
                                                     eulaEnabled: bool, order: seq<AllocationId>, u: UserId)
    requires forall i :: 0 <= i < |order| ==> order[i] in allocations
    ensures var r := AllocationSignals(au, allocations, eulaEnabled, order, u);
      && |r| <= |order|
      && forall i :: 0 <= i < |r| ==> r[i].AllocationActivateUser? && r[i].allocationUser.1 == u
    decreases |order|
  {
    if order != [] {
      AllocationSignalsActivate(au, allocations, eulaEnabled, order[..|order| - 1], u);
    }
  }

  /**
   * Whatever the order, and even when an allocation comes twice, the loop
   * leaves each row of `u` in a visited allocation with the status decided
   * from the table before the loop, adds no other row and changes no other
   * row.
   */
  lemma {:induction false} AllocationsAddedPointwise(au: map<AllocationUserKey, AllocationUserStatus>,
                                                     allocations: map<AllocationId, Allocation>,
                                                     eulaEnabled: bool, order: seq<AllocationId>, u: UserId)
    requires forall i :: 0 <= i < |order| ==> order[i] in allocations
    ensures var r := AllocationsAdded(au, allocations, eulaEnabled, order, u);
      && (forall k :: k in r <==> k in au || (k.1 == u && k.0 in order))
      && (forall a :: a in order ==> r[(a, u)] == DetermineEulaStatus(eulaEnabled, allocations[a], au, a, u))
      && (forall k :: k in au && !(k.1 == u && k.0 in order) ==> r[k] == au[k])
    decreases |order|
  {
    if order != [] {
      var init := order[..|order| - 1];
      var a := order[|order| - 1];
      AllocationsAddedPointwise(au, allocations, eulaEnabled, init, u);
      var prev := AllocationsAdded(au, allocations, eulaEnabled, init, u);
      var r0 := DetermineEulaStatus(eulaEnabled, allocations[a], au, a, u);
      if a in init {
        DetermineEulaStatusLocal(eulaEnabled, allocations[a], prev, au[(a, u) := r0], a, u);
        DetermineEulaStatusFixpoint(eulaEnabled, allocations[a], au, a, u);
      } else {
        DetermineEulaStatusLocal(eulaEnabled, allocations[a], prev, au, a, u);
      }
      assert order == init + [a];
    }
  }

  /** One step of the inner loop: add_user_to_allocation with the EULA status of the moment. */
  method AddToOneAllocation(db: Db, a: AllocationId, u: UserId, eulaEnabled: bool)
    requires db.Valid() && u in db.users && a in db.allocations
    modifies db`allocationUsers, db`events
    ensures db.Valid()
    ensures var status := DetermineEulaStatus(eulaEnabled, db.allocations[a], old(db.allocationUsers), a, u);
      && db.allocationUsers == old(db.allocationUsers)[(a, u) := status]
      && db.events == old(db.events) +
           (if status == AllocationUserStatus.Active && !IsActiveIn(old(db.allocationUsers), a, u)
            then [AllocationActivateUser(AddUsersSender, (a, u))] else [])
  {
    var status := DetermineEulaStatus(eulaEnabled, db.allocations[a], db.allocationUsers, a, u);
    ghost var activated := AddUserToAllocation(db, a, u, Some(status), true, AddUsersSender);
  }

  /** The inner loop: add_user_to_allocation on each selected allocation, with the EULA status of the moment. */
  method AddUserToAllocations(db: Db, order: seq<AllocationId>, u: UserId, eulaEnabled: bool)
    requires db.Valid() && u in db.users && forall i :: 0 <= i < |order| ==> order[i] in db.allocations
    modifies db`allocationUsers, db`events
    ensures db.Valid()
    ensures db.allocationUsers == AllocationsAdded(old(db.allocationUsers), db.allocations, eulaEnabled, order, u)
    ensures db.events == old(db.events) + AllocationSignals(old(db.allocationUsers), db.allocations, eulaEnabled, order, u)
  {
    ghost var au0, e0, allocations := db.allocationUsers, db.events, db.allocations;
    for j := 0 to |order|
      invariant db.Valid() && db.allocations == allocations
      invariant db.allocationUsers == AllocationsAdded(au0, allocations, eulaEnabled, order[..j], u)
      invariant db.events == e0 + AllocationSignals(au0, allocations, eulaEnabled, order[..j], u)
    {
      assert order[..j + 1][..j] == order[..j];
      AddToOneAllocation(db, order[j], u, eulaEnabled);
    }
    assert order[..|order|] == order;
  }

  /** The tables the add-users post writes. */
  datatype AddTables = AddTables(projectUsers: map<ProjectUserKey, ProjectUser>,
                                 allocationUsers: map<AllocationUserKey, AllocationUserStatus>,
                                 events: seq<Event>)

  /** One form of the outer loop: a selected user joins `p` with the chosen role, then the selected allocations. */
  function UserAdded(t: AddTables, p: ProjectId, allocations: map<AllocationId, Allocation>, eulaEnabled: bool,
                     f: AddForm, order: seq<AllocationId>): (r: AddTables)
    requires forall i :: 0 <= i < |order| ==> order[i] in allocations
    ensures !f.selected ==> r == t
    ensures f.selected ==>
      && (p, f.user) in r.projectUsers
      && r.projectUsers[(p, f.user)].role == f.role && r.projectUsers[(p, f.user)].status == ProjectUserStatus.Active
      && r.projectUsers.Keys == t.projectUsers.Keys + {(p, f.user)}
      && |r.events| > |t.events| && r.events[|t.events|] == ProjectActivateUser(AddUsersSender, (p, f.user))
    ensures t.events <= r.events
    ensures t.allocationUsers.Keys <= r.allocationUsers.Keys
  {
    if !f.selected then t
    else
      var key := (p, f.user);
      var notify := if key in t.projectUsers then t.projectUsers[key].enableNotifications else DefaultEnableNotifications;
      AddTables(t.projectUsers[key := ProjectUser(f.role, ProjectUserStatus.Active, notify)],
                AllocationsAdded(t.allocationUsers, allocations, eulaEnabled, order, f.user),
                t.events + [ProjectActivateUser(AddUsersSender, key)]
                + AllocationSignals(t.allocationUsers, allocations, eulaEnabled, order, f.user))
  }

  /** The outer loop over the forms of the user formset. */
  function UsersAdded(t: AddTables, p: ProjectId, allocations: map<AllocationId, Allocation>, eulaEnabled: bool,
                      forms: seq<AddForm>, order: seq<AllocationId>): (r: AddTables)
    requires forall i :: 0 <= i < |order| ==> order[i] in allocations
    ensures t.events <= r.events
    ensures t.projectUsers.Keys <= r.projectUsers.Keys && t.allocationUsers.Keys <= r.allocationUsers.Keys
    ensures |r.events| >= |t.events| + SelectedCount(forms)
    decreases |forms|
  {
    if forms == [] then t
    else UserAdded(UsersAdded(t, p, allocations, eulaEnabled, forms[..|forms| - 1], order),
                   p, allocations, eulaEnabled, forms[|forms| - 1], order)
  }

  /** added_users_count: every selected form counts, a user selected twice twice. */
  function SelectedCount(forms: seq<AddForm>): (n: nat)
    ensures n <= |forms|
    ensures n == 0 <==> forall i :: 0 <= i < |forms| ==> !forms[i].selected
  {
    if forms == [] then 0
    else SelectedCount(forms[..|forms| - 1]) + (if forms[|forms| - 1].selected then 1 else 0)
  }

  /** The role of the last selected form for `v`, the one the membership keeps. */
  function ChosenRole(forms: seq<AddForm>, v: UserId): Option<ProjectUserRole>
    decreases |forms|
  {
    if forms == [] then None
    else if forms[|forms| - 1].selected && forms[|forms| - 1].user == v then Some(forms[|forms| - 1].role)
    else ChosenRole(forms[..|forms| - 1], v)
  }

  /**
   * After the post, every selected user is an Active member of `p` with
   * the role of their last selected form, and no other membership changes.
   */
  lemma {:induction false} UsersAddedMembers(t: AddTables, p: ProjectId, allocations: map<AllocationId, Allocation>,
                                             eulaEnabled: bool, forms: seq<AddForm>, order: seq<AllocationId>)
    requires forall i :: 0 <= i < |order| ==> order[i] in allocations
    ensures var r := UsersAdded(t, p, allocations, eulaEnabled, forms, order).projectUsers;
      && (forall v: UserId :: ChosenRole(forms, v).Some? ==>
            (p, v) in r && r[(p, v)].status == ProjectUserStatus.Active && r[(p, v)].role == ChosenRole(forms, v).value)
      && (forall k :: k in r <==> k in t.projectUsers || (k.0 == p && ChosenRole(forms, k.1).Some?))
      && (forall k :: k in t.projectUsers && !(k.0 == p && ChosenRole(forms, k.1).Some?) ==> r[k] == t.projectUsers[k])
    decreases |forms|
  {
    if forms != [] {
      UsersAddedMembers(t, p, allocations, eulaEnabled, forms[..|forms| - 1], order);
    }
  }

  /**
   * Each row of a selected user in a selected allocation ends with the
   * status decided from the table before the post, however often the user
   * is selected; no other allocation-user row is added or changed.
   */
  lemma {:induction false} UsersAddedAllocations(t: AddTables, p: ProjectId, allocations: map<AllocationId, Allocation>,
                                                 eulaEnabled: bool, forms: seq<AddForm>, order: seq<AllocationId>)
    requires forall i :: 0 <= i < |order| ==> order[i] in allocations
    ensures var r := UsersAdded(t, p, allocations, eulaEnabled, forms, order).allocationUsers;
      && (forall k :: k in r <==> k in t.allocationUsers || (k.0 in order && ChosenRole(forms, k.1).Some?))
      && (forall a, v: UserId :: a in order && ChosenRole(forms, v).Some? ==>
            r[(a, v)] == DetermineEulaStatus(eulaEnabled, allocations[a], t.allocationUsers, a, v))
      && (forall k :: k in t.allocationUsers && !(k.0 in order && ChosenRole(forms, k.1).Some?) ==> r[k] == t.allocationUsers[k])
    decreases |forms|
  {
    if forms != [] {
      var init := forms[..|forms| - 1];
      var f := forms[|forms| - 1];
      UsersAddedAllocations(t, p, allocations, eulaEnabled, init, order);
      if f.selected {
        var prev := UsersAdded(t, p, allocations, eulaEnabled, init, order).allocationUsers;
        AllocationsAddedPointwise(prev, allocations, eulaEnabled, order, f.user);
        forall a | a in order
          ensures DetermineEulaStatus(eulaEnabled, allocations[a], prev, a, f.user)
               == DetermineEulaStatus(eulaEnabled, allocations[a], t.allocationUsers, a, f.user)
        {
          AgainSameStatus(t.allocationUsers, prev, allocations[a], eulaEnabled, a, f.user, ChosenRole(init, f.user).Some?);
        }
      }
    }
  }

  /** Deciding on a table where the row is untouched, or already holds the decision, gives the same decision. */
  lemma AgainSameStatus(au: map<AllocationUserKey, AllocationUserStatus>, prev: map<AllocationUserKey, AllocationUserStatus>,
                        allocation: Allocation, eulaEnabled: bool, a: AllocationId, u: UserId, seen: bool)
    requires seen ==> (a, u) in prev && prev[(a, u)] == DetermineEulaStatus(eulaEnabled, allocation, au, a, u)
    requires !seen ==> ((a, u) in prev <==> (a, u) in au) && ((a, u) in au ==> prev[(a, u)] == au[(a, u)])
    ensures DetermineEulaStatus(eulaEnabled, allocation, prev, a, u) == DetermineEulaStatus(eulaEnabled, allocation, au, a, u)
  {
    var r0 := DetermineEulaStatus(eulaEnabled, allocation, au, a, u);
    if seen {
      DetermineEulaStatusLocal(eulaEnabled, allocation, prev, au[(a, u) := r0], a, u);
      DetermineEulaStatusFixpoint(eulaEnabled, allocation, au, a, u);
    } else {
      DetermineEulaStatusLocal(eulaEnabled, allocation, prev, au, a, u);
    }
  }

  /** The outer loop: add_user_to_project for each selected form, then the inner loop. */
  method AddSelected(db: Db, p: ProjectId, forms: seq<AddForm>, order: seq<AllocationId>, eulaEnabled: bool)
    returns (count: nat)
    requires db.Valid() && p in db.projects
    requires forall i :: 0 <= i < |forms| ==> forms[i].user in db.users
    requires forall i :: 0 <= i < |order| ==> order[i] in db.allocations
    modifies db`projectUsers, db`allocationUsers, db`events
    ensures db.Valid()
    ensures count == SelectedCount(forms)
    ensures AddTables(db.projectUsers, db.allocationUsers, db.events) ==
      UsersAdded(AddTables(old(db.projectUsers), old(db.allocationUsers), old(db.events)), p, db.allocations, eulaEnabled, forms, order)
  {
    count := 0;
    ghost var t0 := AddTables(db.projectUsers, db.allocationUsers, db.events);
    for i := 0 to |forms|
      invariant db.Valid()
      invariant count == SelectedCount(forms[..i])
      invariant AddTables(db.projectUsers, db.allocationUsers, db.events) ==
        UsersAdded(t0, p, db.allocations, eulaEnabled, forms[..i], order)
    {
      assert forms[..i + 1][..i] == forms[..i];
      var f := forms[i];
      if f.selected {
        var key, created := AddUserToProject(db, p, f.user, f.role, true, AddUsersSender);
        count := count + 1;
        AddUserToAllocations(db, order, f.user, eulaEnabled);
      }
    }
    assert forms[..|forms|] == forms;
  }

  /** The allocations `Allocation.objects.filter(pk__in=...)` finds for the selected allocation forms. */
  function SelectedAllocations(allocations: map<AllocationId, Allocation>, pks: seq<AllocationId>): (S: set<AllocationId>)
    ensures forall a :: a in S <==> a in pks && a in allocations
  {
    set a | a in pks && a in allocations
  }

  /**
   * ProjectAddUsersView.post on project `p`, with the cleaned user forms
   * and the pks of the selected allocation forms (None when that formset is
   * invalid). `order` is the order in which the allocation query yields the
   * allocations found.
   */
  method AddUsersPost(db: Db, p: ProjectId, forms: Option<seq<AddForm>>, allocationPks: Option<seq<AllocationId>>,
                      order: seq<AllocationId>, eulaEnabled: bool) returns (message: Option<string>, count: nat)
    requires db.Valid() && p in db.projects
    requires forms.Some? ==> forall i :: 0 <= i < |forms.value| ==> forms.value[i].user in db.users
    requires allocationPks.Some? ==> Enumerates(order, SelectedAllocations(db.allocations, allocationPks.value))
    modifies db`projectUsers, db`allocationUsers, db`events
    ensures db.Valid()
    ensures forms.None? || allocationPks.None? ==> message.None? && count == 0 && unchanged(db)
    ensures forms.Some? && allocationPks.Some? ==>
      && count == SelectedCount(forms.value)
      && message == Some("Added " + NatToString(count) + " users to project.")
      && AddTables(db.projectUsers, db.allocationUsers, db.events) ==
           UsersAdded(AddTables(old(db.projectUsers), old(db.allocationUsers), old(db.events)), p, db.allocations, eulaEnabled,
                      forms.value, order)
  {
    if forms.None? || allocationPks.None? {
      return None, 0;
    }
    assert forall i :: 0 <= i < |order| ==> order[i] in db.allocations by {
      forall i | 0 <= i < |order| ensures order[i] in db.allocations {
        assert order[i] in SelectedAllocations(db.allocations, allocationPks.value);
      }
    }
    count := AddSelected(db, p, forms.value, order, eulaEnabled);
    message := Some("Added " + NatToString(count) + " users to project.");
  }
}
