/**
 * The view mixins shared by the project and allocation views
 * (coldfront/core/utils/mixins/views.py): snake-case template names, the
 * archived-project gate, and the "active manager or higher" test.
 */
module Mixins {
  import opened Wrappers
  import opened Text
  import opened Choices
  import opened Store
  import opened ViewHelpers
  import opened ProjectUtils

  // ---------------------------------------------------------------- snake case

  /** `re.sub("([A-Z])", r"_\1", t)`: an underscore before every ASCII capital. */
  function Underscored(t: string): (r: string)
    ensures |r| == |t| + CountUpper(t)
  {
    if t == [] then [] else (if IsUpper(t[0]) then ['_', t[0]] else [t[0]]) + Underscored(t[1..])
  }

  /**
   * to_snake inside get_template_names: the first character lower-cased,
   * then the rest with an underscore before each capital, lower-cased.
   * The empty name has no first character (an IndexError): None.
   */
  function ToSnake(s: string): (r: Option<string>)
    ensures r.None? <==> s == []
    ensures r.Some? ==> |r.value| == |s| + CountUpper(s[1..])
    ensures r.Some? ==> forall i :: 0 <= i < |r.value| ==> !IsUpper(r.value[i])
    ensures r.Some? ==> r.value[0] == LowerChar(s[0])
  {
    if s == [] then None else Some([LowerChar(s[0])] + Lower(Underscored(s[1..])))
  }

  /** The transformation of the tail, character by character: a capital becomes '_' and its lower case. */
  function SnakeRest(t: string): string
  {
    if t == [] then [] else (if IsUpper(t[0]) then ['_', LowerChar(t[0])] else [t[0]]) + SnakeRest(t[1..])
  }

  lemma {:induction false} LowerAppend(a: string, b: string)
    ensures Lower(a + b) == Lower(a) + Lower(b)
  {
  }

  /** Substituting then lower-casing is the character-by-character transformation. */
  lemma {:induction false} LowerUnderscored(t: string)
    ensures Lower(Underscored(t)) == SnakeRest(t)
  {
    if t != [] {
      var head := if IsUpper(t[0]) then ['_', t[0]] else [t[0]];
      LowerAppend(head, Underscored(t[1..]));
      LowerUnderscored(t[1..]);
      assert Lower(head) == (if IsUpper(t[0]) then ['_', LowerChar(t[0])] else [t[0]]);
    }
  }

  predicate IsLetter(c: char) { IsUpper(c) || IsLower(c) }

  /** The inverse on the tail: "_x" becomes the capital of x. */
  function CamelRest(t: string): string
  {
    if t == [] then []
    else if t[0] == '_' && |t| > 1 then [UpperChar(t[1])] + CamelRest(t[2..])
    else [t[0]] + CamelRest(t[1..])
  }

  function ToCamel(t: string): string
  {
    if t == [] then [] else [UpperChar(t[0])] + CamelRest(t[1..])
  }

  lemma {:induction false} CamelSnakeRest(t: string)
    requires forall i :: 0 <= i < |t| ==> IsLetter(t[i])
    ensures CamelRest(SnakeRest(t)) == t
  {
    if t != [] {
      var rest := SnakeRest(t[1..]);
      CamelSnakeRest(t[1..]);
      if IsUpper(t[0]) {
        var x := ['_', LowerChar(t[0])] + rest;
        assert x[0] == '_' && x[1] == LowerChar(t[0]) && x[2..] == rest;
        assert UpperChar(LowerChar(t[0])) == t[0];
      } else {
        var x := [t[0]] + rest;
        assert x[1..] == rest;
      }
    }
  }

  /**
   * For a class name made of ASCII letters that starts with a capital,
   * the snake-case name determines the class name: capitalising after each
   * underscore gives it back.
   */
  lemma ToSnakeRoundTrip(s: string)
    requires s != [] && IsUpper(s[0])
    requires forall i :: 0 <= i < |s| ==> IsLetter(s[i])
    ensures ToCamel(ToSnake(s).value) == s
  {
    var t := s[1..];
    LowerUnderscored(t);
    CamelSnakeRest(t);
    var r := ToSnake(s).value;
    assert r == [LowerChar(s[0])] + SnakeRest(t);
    assert r[1..] == SnakeRest(t);
    assert UpperChar(LowerChar(s[0])) == s[0];
    assert [s[0]] + t == s;
  }

  /**
   * A run of capitals is split letter by letter: "DOIDisplay" gives
   * "d_o_i_display", not "doi_display".
   */
  lemma ToSnakeCapitalRun(c0: char, c1: char, t: string)
    requires IsUpper(c0) && IsUpper(c1)
    ensures ToSnake([c0, c1] + t).value[..3] == [LowerChar(c0), '_', LowerChar(c1)]
  {
    var s := [c0, c1] + t;
    assert s[1..] == [c1] + t;
    LowerUnderscored(s[1..]);
    assert SnakeRest(s[1..]) == ['_', LowerChar(c1)] + SnakeRest(t) by {
      assert (s[1..])[0] == c1 && (s[1..])[1..] == t;
    }
  }

  /**
   * get_template_names: the one template "<app>/<snake model name><suffix>.html",
   * or None when the model name is empty.
   */
  function TemplateNames(appLabel: string, modelName: string, suffix: string): (r: Option<seq<string>>)
    ensures r.None? <==> modelName == []
    ensures r.Some? ==> |r.value| == 1
  {
    match ToSnake(modelName)
    case None => None
    case Some(snake) => Some([appLabel + "/" + snake + suffix + ".html"])
  }

  /** The template sits under the app label, ends in the suffix and ".html", and its model part has no capitals. */
  lemma TemplateNamesShape(appLabel: string, modelName: string, suffix: string)
    requires modelName != []
    ensures var name := TemplateNames(appLabel, modelName, suffix).value[0];
      var snake := ToSnake(modelName).value;
      && name == appLabel + "/" + snake + suffix + ".html"
      && |name| == |appLabel| + |modelName| + CountUpper(modelName[1..]) + |suffix| + 6
      && forall j :: |appLabel| + 1 <= j < |appLabel| + 1 + |snake| ==> !IsUpper(name[j])
  {
    var name := TemplateNames(appLabel, modelName, suffix).value[0];
    var snake := ToSnake(modelName).value;
    forall j | |appLabel| + 1 <= j < |appLabel| + 1 + |snake|
      ensures !IsUpper(name[j])
    {
      assert name[j] == snake[j - |appLabel| - 1];
    }
  }

  // ---------------------------------------------------------------- archived-project gate

  datatype Gate = NotFound404 | RedirectArchived | Proceed

  /** ChangesOnlyOnActiveProjectMixin.dispatch on project `p`. */
  function ChangesOnlyOnActiveProject(projects: map<ProjectId, Project>, p: ProjectId): (r: Gate)
    ensures r == NotFound404 <==> p !in projects
    ensures r == Proceed <==> p in projects && (projects[p].status.Name() == "Active" || projects[p].status.Name() == "New")
  {
    if p !in projects then NotFound404
    else if projects[p].status.Name() !in ["Active", "New"] then RedirectArchived
    else Proceed
  }

  /** The gate refuses exactly the projects project_is_archived calls archived, that is the Archived ones. */
  lemma ChangesOnlyOnActiveProjectArchived(projects: map<ProjectId, Project>, p: ProjectId)
    requires p in projects
    ensures ChangesOnlyOnActiveProject(projects, p) == RedirectArchived <==> ProjectIsArchived(projects[p].status)
    ensures ChangesOnlyOnActiveProject(projects, p) == RedirectArchived <==> projects[p].status == ProjectStatus.Archived
  {
  }

  // ---------------------------------------------------------------- manager test

  /** What test_func returns: True, None (falsy), or the 404 of the project lookup. */
  datatype TestResult = ReturnsTrue | ReturnsNone | TestNotFound404

  /**
   * UserActiveManagerOrHigherMixin.test_func for user `u` and project `p`:
   * a superuser passes before the project is even looked up.
   */
  function ActiveManagerOrHigher(users: map<UserId, UserRecord>, projects: map<ProjectId, Project>,
                                 pu: map<ProjectUserKey, ProjectUser>, p: ProjectId, u: UserId): (r: TestResult)
    requires u in users
    ensures r == TestNotFound404 <==> !users[u].isSuperuser && p !in projects
  {
    if users[u].isSuperuser then ReturnsTrue
    else if p !in projects then TestNotFound404
    else if projects[p].pi == u then ReturnsTrue
    else if (p, u) in pu && pu[(p, u)].role.Name() == "Manager" && pu[(p, u)].status.Name() == "Active" then ReturnsTrue
    else ReturnsNone
  }

  /** The mixin admits exactly the users user_is_pi_or_manager admits on an existing project. */
  lemma ActiveManagerOrHigherAgrees(users: map<UserId, UserRecord>, projects: map<ProjectId, Project>,
                                    pu: map<ProjectUserKey, ProjectUser>, p: ProjectId, u: UserId)
    requires u in users
    ensures ActiveManagerOrHigher(users, projects, pu, p, u) == ReturnsTrue <==>
      users[u].isSuperuser || (p in projects && UserIsPiOrManager(users, projects, pu, p, u))
    ensures p in projects ==>
      (ActiveManagerOrHigher(users, projects, pu, p, u) == ReturnsTrue <==> UserIsPiOrManager(users, projects, pu, p, u))
  {
  }
}
