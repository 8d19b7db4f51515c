/**
 * The archived test and the seeding of the project lookup tables
 * (coldfront/core/project/utils/utils.py).
 */
module ProjectUtils {
  import opened Choices

  /** project_is_archived: the status is neither Active nor New. */
  function ProjectIsArchived(status: ProjectStatus): (r: bool)
    ensures r <==> status.Name() != "Active" && status.Name() != "New"
  {
    status.Name() !in ["Active", "New"]
  }

  /** Of the three project statuses only Archived counts as archived. */
  lemma ProjectIsArchivedIff(status: ProjectStatus)
    ensures ProjectIsArchived(status) <==> status == ProjectStatus.Archived
  {
  }

  const ProjectStatusSeed: seq<string> := ["New", "Active", "Archived"]
  const ProjectUserRoleSeed: seq<string> := ["User", "Manager"]
  const ProjectUserStatusSeed: seq<string> := ["Active", "Pending Remove", "Denied", "Removed"]

  /** The seed lists name exactly the statuses and roles the model knows. */
  lemma SeedsNameTheChoices()
    ensures forall s: ProjectStatus :: s.Name() in ProjectStatusSeed
    ensures forall n :: n in ProjectStatusSeed ==> exists s: ProjectStatus :: s.Name() == n
    ensures forall r: ProjectUserRole :: r.Name() in ProjectUserRoleSeed
    ensures forall n :: n in ProjectUserRoleSeed ==> exists r: ProjectUserRole :: r.Name() == n
    ensures forall s: ProjectUserStatus :: s.Name() in ProjectUserStatusSeed
    ensures forall n :: n in ProjectUserStatusSeed ==> exists s: ProjectUserStatus :: s.Name() == n
    ensures NoDuplicates(ProjectStatusSeed) && NoDuplicates(ProjectUserRoleSeed) && NoDuplicates(ProjectUserStatusSeed)
  {
    assert ProjectStatus.New.Name() == ProjectStatusSeed[0];
    assert ProjectStatus.Active.Name() == ProjectStatusSeed[1];
    assert ProjectStatus.Archived.Name() == ProjectStatusSeed[2];
    assert ProjectUserRole.User.Name() == ProjectUserRoleSeed[0];
    assert ProjectUserRole.Manager.Name() == ProjectUserRoleSeed[1];
    assert ProjectUserStatus.Active.Name() == ProjectUserStatusSeed[0];
    assert ProjectUserStatus.PendingRemove.Name() == ProjectUserStatusSeed[1];
    assert ProjectUserStatus.Denied.Name() == ProjectUserStatusSeed[2];
    assert ProjectUserStatus.Removed.Name() == ProjectUserStatusSeed[3];
  }

  predicate NoDuplicates(s: seq<string>)
  {
    forall i, j :: 0 <= i < j < |s| ==> s[i] != s[j]
  }

  /** The rows of a table after `get_or_create(name=...)` for each of `choices`, in order. */
  function Seeded(names: seq<string>, choices: seq<string>): (r: seq<string>)
    ensures forall n :: n in r <==> n in names || n in choices
    ensures NoDuplicates(names) ==> NoDuplicates(r)
    decreases |choices|
  {
    if choices == [] then names
    else Seeded(if choices[0] in names then names else names + [choices[0]], choices[1..])
  }

  /** Seeding twice leaves the table as seeding once: no duplicates are created. */
  lemma {:induction false} SeededIdempotent(names: seq<string>, choices: seq<string>)
    ensures Seeded(Seeded(names, choices), choices) == Seeded(names, choices)
  {
    AllPresent(Seeded(names, choices), choices);
  }

  lemma {:induction false} AllPresent(names: seq<string>, choices: seq<string>)
    requires forall n :: n in choices ==> n in names
    ensures Seeded(names, choices) == names
    decreases |choices|
  {
    if choices != [] {
      assert choices[0] in choices;
      AllPresent(names, choices[1..]);
    }
  }

  /** One lookup table (ProjectStatusChoice, ProjectUserRoleChoice or ProjectUserStatusChoice): its rows' names. */
  class ChoiceTable {
    var names: seq<string>

    constructor (names: seq<string>)
      ensures this.names == names
    {
      this.names := names;
    }

    /** `get_or_create(name=name)`: a row is created only when none has that name. */
    method GetOrCreate(name: string) returns (created: bool)
      modifies this
      ensures created <==> name !in old(names)
      ensures names == if created then old(names) + [name] else old(names)
    {
      created := name !in names;
      if created {
        names := names + [name];
      }
    }

    /** The loop of the add_*_choices functions. */
    method Seed(choices: seq<string>)
      modifies this
      ensures names == Seeded(old(names), choices)
    {
      var i := 0;
      while i < |choices|
        invariant 0 <= i <= |choices|
        invariant Seeded(names, choices[i..]) == Seeded(old(names), choices)
      {
        assert choices[i..][1..] == choices[i + 1..];
        var _ := GetOrCreate(choices[i]);
        i := i + 1;
      }
    }
  }

  /** add_project_status_choices. */
  method AddProjectStatusChoices(t: ChoiceTable)
    modifies t
    ensures t.names == Seeded(old(t.names), ProjectStatusSeed)
  {
    t.Seed(ProjectStatusSeed);
  }

  /** add_project_user_role_choices. */
  method AddProjectUserRoleChoices(t: ChoiceTable)
    modifies t
    ensures t.names == Seeded(old(t.names), ProjectUserRoleSeed)
  {
    t.Seed(ProjectUserRoleSeed);
  }

  /** add_project_user_status_choices. */
  method AddProjectUserStatusChoices(t: ChoiceTable)
    modifies t
    ensures t.names == Seeded(old(t.names), ProjectUserStatusSeed)
  {
    t.Seed(ProjectUserStatusSeed);
  }

  /** Seeding an empty table gives exactly the seed list, in order. */
  lemma {:induction false} SeededEmpty(choices: seq<string>)
    requires NoDuplicates(choices)
    ensures Seeded([], choices) == choices
  {
    SeededFresh([], choices);
  }

  lemma {:induction false} SeededFresh(names: seq<string>, choices: seq<string>)
    requires NoDuplicates(choices)
    requires forall n :: n in choices ==> n !in names
    ensures Seeded(names, choices) == names + choices
    decreases |choices|
  {
    if choices != [] {
      assert choices[0] in choices;
      var rest := choices[1..];
      assert forall n :: n in rest ==> n !in names + [choices[0]] by {
        forall n | n in rest ensures n !in names + [choices[0]] {
          var k :| 0 <= k < |rest| && rest[k] == n;
          assert choices[k + 1] == n;
          assert n in choices;
        }
      }
      SeededFresh(names + [choices[0]], rest);
      assert names + [choices[0]] + rest == names + choices;
    }
  }
}
