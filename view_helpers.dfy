/**
 * Permission predicates, sort and query-string builders, and the
 * post-processing of a user search
 * (coldfront/core/project/utils/view_helper_utils.py).
 */
module ViewHelpers {
  import opened Wrappers
  import opened Text
  import opened Choices
  import opened Store

  // ---------------------------------------------------------------- permissions

  /** The user has an Active membership of project `p` in role Manager. */
  predicate IsActiveManager(pu: map<ProjectUserKey, ProjectUser>, p: ProjectId, u: UserId)
  {
    (p, u) in pu && pu[(p, u)].role == ProjectUserRole.Manager && pu[(p, u)].status == ProjectUserStatus.Active
  }

  /** The user has an Active membership of project `p`, in any role. */
  predicate IsActiveMember(pu: map<ProjectUserKey, ProjectUser>, p: ProjectId, u: UserId)
  {
    (p, u) in pu && pu[(p, u)].status == ProjectUserStatus.Active
  }

  /** user_is_pi_or_manager for user `u` and project `p`. */
  function UserIsPiOrManager(users: map<UserId, UserRecord>, projects: map<ProjectId, Project>,
                             pu: map<ProjectUserKey, ProjectUser>, p: ProjectId, u: UserId): (r: bool)
    requires u in users && p in projects
    ensures r <==> users[u].isSuperuser || projects[p].pi == u || IsActiveManager(pu, p, u)
  {
    if users[u].isSuperuser then true
    else if projects[p].pi == u then true
    else if (p, u) in pu && pu[(p, u)].role.Name() == "Manager" && pu[(p, u)].status.Name() == "Active" then true
    else false
  }

  /**
   * user_can_view_project for user `u` and project `p`; `canViewAll` is
   * the user's `project.can_view_all_projects` permission.
   */
  function UserCanViewProject(users: map<UserId, UserRecord>, canViewAll: bool,
                              pu: map<ProjectUserKey, ProjectUser>, p: ProjectId, u: UserId): (r: bool)
    requires u in users
    ensures r <==> users[u].isSuperuser || canViewAll || IsActiveMember(pu, p, u)
  {
    if users[u].isSuperuser then true
    else if canViewAll then true
    else if (p, u) in pu && pu[(p, u)].status.Name() == "Active" then true
    else false
  }

  /** Anyone other than the PI who may manage a project may also view it. */
  lemma ManagerCanView(users: map<UserId, UserRecord>, projects: map<ProjectId, Project>, canViewAll: bool,
                       pu: map<ProjectUserKey, ProjectUser>, p: ProjectId, u: UserId)
    requires u in users && p in projects && projects[p].pi != u
    requires UserIsPiOrManager(users, projects, pu, p, u)
    ensures UserCanViewProject(users, canViewAll, pu, p, u)
  {
  }

  // ---------------------------------------------------------------- sorting

  /** The prefix `handle_sorting_params` puts before a column other than "name". */
  function SortPrefix(direction: string): (prefix: string)
    ensures direction == "asc" ==> prefix == ""
    ensures direction == "des" ==> prefix == "-"
    ensures direction != "asc" && direction != "des" ==> prefix == direction
  {
    var d := if direction == "asc" then "" else direction;
    if d == "des" then "-" else d
  }

  /** handle_sorting_params: "name" is returned as is; any other column gets the direction prefix. */
  function HandleSortingParams(orderBy: string, direction: string): (r: string)
    ensures orderBy == "name" ==> r == "name"
    ensures orderBy != "name" ==> r == SortPrefix(direction) + orderBy
  {
    if orderBy != "name" then SortPrefix(direction) + orderBy else orderBy
  }

  /** The column is always the tail of the result, and the prefix is the only thing added. */
  lemma HandleSortingParamsEndsWithColumn(orderBy: string, direction: string)
    ensures var r := HandleSortingParams(orderBy, direction);
      |r| >= |orderBy| && r[|r| - |orderBy|..] == orderBy
    ensures orderBy != "name" && direction == "asc" ==> HandleSortingParams(orderBy, direction) == orderBy
    ensures orderBy != "name" && direction == "des" ==> HandleSortingParams(orderBy, direction) == "-" + orderBy
  {
    var r := HandleSortingParams(orderBy, direction);
    if orderBy != "name" {
      assert r[|r| - |orderBy|..] == (SortPrefix(direction) + orderBy)[|SortPrefix(direction)|..];
    }
  }

  /** sort_params_to_query_string. */
  function SortParamsToQueryString(orderBy: string, direction: string): (q: string)
    ensures StartsWith(q, "order_by=")
  {
    "order_by=" + orderBy + "&direction=" + direction
  }

  /** `s` split at its first `c`: the text before it and the text after it. */
  function SplitAtFirst(s: string, c: char): (r: Option<(string, string)>)
    ensures r.None? <==> c !in s
    ensures r.Some? ==> s == r.value.0 + [c] + r.value.1 && c !in r.value.0
  {
    if s == [] then None
    else if s[0] == c then
      assert s == [] + [c] + s[1..];
      Some(([], s[1..]))
    else
      match SplitAtFirst(s[1..], c)
      case None => None
      case Some((before, after)) =>
        assert s == ([s[0]] + before) + [c] + after;
        Some(([s[0]] + before, after))
  }

  lemma {:induction false} SplitAtFirstOf(a: string, c: char, b: string)
    requires c !in a
    ensures SplitAtFirst(a + [c] + b, c) == Some((a, b))
  {
    if a == [] {
      assert a + [c] + b == [c] + b;
    } else {
      assert (a + [c] + b)[1..] == a[1..] + [c] + b;
      SplitAtFirstOf(a[1..], c, b);
      assert [a[0]] + a[1..] == a;
    }
  }

  /** Reads an `order_by=...&direction=...` string back into its two parameters. */
  function ParseSortQuery(q: string): Option<(string, string)>
  {
    if StartsWith(q, "order_by=") then
      match SplitAtFirst(q[9..], '&')
      case None => None
      case Some((orderBy, rest)) =>
        if StartsWith(rest, "direction=") then Some((orderBy, rest[10..])) else None
    else None
  }

  /** A column name without '&' survives the round trip through the query string. */
  lemma SortQueryRoundTrip(orderBy: string, direction: string)
    requires '&' !in orderBy
    ensures ParseSortQuery(SortParamsToQueryString(orderBy, direction)) == Some((orderBy, direction))
  {
    var q := SortParamsToQueryString(orderBy, direction);
    assert q[9..] == orderBy + ['&'] + ("direction=" + direction);
    SplitAtFirstOf(orderBy, '&', "direction=" + direction);
    assert ("direction=" + direction)[10..] == direction;
  }

  // ---------------------------------------------------------------- form data

  /** A scalar form value, as Python would format it with `str`. */
  datatype Scalar = Text(s: string) | Int(n: int) | Bool(b: bool) | Null {
    predicate Truthy() {
      match this
      case Text(s) => s != ""
      case Int(n) => n != 0
      case Bool(b) => b
      case Null => false
    }
    function Str(): string {
      match this
      case Text(s) => s
      case Int(n) => IntToString(n)
      case Bool(b) => if b then "True" else "False"
      case Null => "None"
    }
  }

  /** A cleaned form value: a scalar or a list of scalars. */
  datatype FormValue = One(v: Scalar) | Many(items: seq<Scalar>) {
    predicate Truthy() {
      match this
      case One(v) => v.Truthy()
      case Many(items) => items != []
    }
  }

  function Param(key: string, value: string): (r: string)
    ensures |r| > 0 && r[|r| - 1] == '&'
  {
    key + "=" + value + "&"
  }

  /** One `key=ele&` per element of a list value, in order: empty only for an empty list, else `key=...&`. */
  function ListParams(key: string, items: seq<Scalar>): (r: string)
    ensures r == [] <==> items == []
    ensures r != [] ==> r[|r| - 1] == '&' && StartsWith(r, key + "=")
  {
    if items == [] then ""
    else
      var front := ListParams(key, items[..|items| - 1]);
      var last := Param(key, items[|items| - 1].Str());
      assert front != [] ==> (front + last)[..|key| + 1] == front[..|key| + 1];
      assert (key + "=" + items[|items| - 1].Str() + "&")[..|key| + 1] == key + "=";
      front + last
  }

  /** What one dictionary item contributes: nothing for a falsy value, else parameters led by `key=` and closed by '&'. */
  function ItemParams(key: string, value: FormValue): (r: string)
    ensures r == [] <==> !value.Truthy()
    ensures r != [] ==> r[|r| - 1] == '&' && StartsWith(r, key + "=")
  {
    if !value.Truthy() then ""
    else match value
      case One(v) => Param(key, v.Str())
      case Many(items) => ListParams(key, items)
  }

  /**
   * The query string for the dictionary items `data`, in iteration order:
   * empty when no value is truthy, else ending with '&'.
   */
  function QueryString(data: seq<(string, FormValue)>): (r: string)
    ensures r == [] <==> forall i :: 0 <= i < |data| ==> !data[i].1.Truthy()
    ensures r != [] ==> r[|r| - 1] == '&'
  {
    if data == [] then ""
    else
      var front := data[..|data| - 1];
      assert forall i :: 0 <= i < |front| ==> front[i] == data[i];
      QueryString(front) + ItemParams(data[|data| - 1].0, data[|data| - 1].1)
  }

  /** form_data_to_query_string: the outer loop over the dictionary items. */
  method FormDataToQueryString(data: seq<(string, FormValue)>) returns (r: string)
    ensures r == QueryString(data)
  {
    r := "";
    var i := 0;
    while i < |data|
      invariant 0 <= i <= |data|
      invariant r == QueryString(data[..i])
    {
      var key, value := data[i].0, data[i].1;
      assert data[..i + 1][..i] == data[..i];
      if value.Truthy() {
        match value {
          case One(v) =>
            r := r + Param(key, v.Str());
          case Many(items) =>
            r := AppendListParams(r, key, items);
        }
      }
      i := i + 1;
    }
    assert data[..|data|] == data;
  }

  /** The inner loop of form_data_to_query_string, over the elements of a list value. */
  method AppendListParams(r0: string, key: string, items: seq<Scalar>) returns (r: string)
    ensures r == r0 + ListParams(key, items)
  {
    r := r0;
    var j := 0;
    while j < |items|
      invariant 0 <= j <= |items|
      invariant r == r0 + ListParams(key, items[..j])
    {
      ListParamsSnoc(key, items, j);
      ConcatAssoc(r0, ListParams(key, items[..j]), Param(key, items[j].Str()));
      r := r + Param(key, items[j].Str());
      j := j + 1;
    }
    assert items[..|items|] == items;
  }

  lemma ConcatAssoc(a: string, b: string, c: string)
    ensures (a + b) + c == a + (b + c)
  {
  }

  lemma ListParamsSnoc(key: string, items: seq<Scalar>, j: nat)
    requires j < |items|
    ensures ListParams(key, items[..j + 1]) == ListParams(key, items[..j]) + Param(key, items[j].Str())
  {
    assert items[..j + 1][..j] == items[..j];
  }

  /** Items are rendered independently and in order, so the query string of a concatenation concatenates. */
  lemma {:induction false} QueryStringAppend(a: seq<(string, FormValue)>, b: seq<(string, FormValue)>)
    ensures QueryString(a + b) == QueryString(a) + QueryString(b)
    decreases |b|
  {
    if b == [] {
      assert a + b == a;
    } else {
      var b' := b[..|b| - 1];
      var last := b[|b| - 1];
      assert (a + b)[..|a + b| - 1] == a + b';
      assert (a + b)[|a + b| - 1] == last;
      QueryStringAppend(a, b');
      ConcatAssoc(QueryString(a), QueryString(b'), ItemParams(last.0, last.1));
    }
  }

  // ---------------------------------------------------------------- user search

  /** The fields of one search match that the core touches. */
  datatype Match = Match(username: string, role: Option<ProjectUserRole>)

  /** The part of the user-search result the core post-processes. */
  datatype SearchResult = SearchResult(matches: seq<Match>, usersAlreadyInProject: seq<string>)

  /** `r` is `s` with some elements dropped, the rest kept in order. */
  predicate IsSubsequence<T(==)>(r: seq<T>, s: seq<T>)
  {
    if r == [] then true
    else if s == [] then false
    else if r[0] == s[0] then IsSubsequence(r[1..], s[1..])
    else IsSubsequence(r, s[1..])
  }

  lemma {:induction false} SubsequenceOfTail<T>(r: seq<T>, s: seq<T>)
    requires s != [] && IsSubsequence(r, s[1..])
    ensures IsSubsequence(r, s)
  {
    if r != [] && r[0] == s[0] {
      SubsequenceDropHead(r, s[1..]);
    }
  }

  lemma {:induction false} SubsequenceDropHead<T>(r: seq<T>, s: seq<T>)
    requires r != [] && IsSubsequence(r, s)
    ensures IsSubsequence(r[1..], s)
  {
    if s != [] {
      if r[0] == s[0] {
        SubsequenceOfTail(r[1..], s);
      } else {
        SubsequenceDropHead(r, s[1..]);
        SubsequenceOfTail(r[1..], s);
      }
    }
  }

  /** Appending the same element to both sides, or to the longer one only, keeps a subsequence. */
  lemma {:induction false} SubsequenceSnoc<T>(r: seq<T>, s: seq<T>, t: T)
    requires IsSubsequence(r, s)
    ensures IsSubsequence(r, s + [t]) && IsSubsequence(r + [t], s + [t])
    decreases |s|
  {
    if s == [] {
      assert r == [];
      assert ([t] + [])[1..] == [];
    } else {
      assert (s + [t])[1..] == s[1..] + [t];
      if r == [] {
        SubsequenceSnoc(r, s[1..], t);
        assert r + [t] == [t];
      } else {
        assert (r + [t])[0] == r[0] && (r + [t])[1..] == r[1..] + [t];
        if r[0] == s[0] {
          SubsequenceSnoc(r[1..], s[1..], t);
        } else {
          SubsequenceSnoc(r, s[1..], t);
        }
      }
    }
  }

  /**
   * The tokens of `tokens` that occur in `already`, in token order: each
   * such token as often as it occurs in `tokens`, and no other.
   */
  function KeepIn(tokens: seq<string>, already: seq<string>): (r: seq<string>)
    ensures forall x :: x in r <==> x in tokens && x in already
    ensures forall x :: multiset(r)[x] == if x in already then multiset(tokens)[x] else 0
    ensures IsSubsequence(r, tokens)
    ensures |r| <= |tokens|
  {
    if tokens == [] then []
    else
      var front := tokens[..|tokens| - 1];
      var rest := KeepIn(front, already);
      var t := tokens[|tokens| - 1];
      assert tokens == front + [t];
      assert forall x :: x in tokens <==> x in front || x == t;
      SubsequenceSnoc(rest, front, t);
      if t in already then rest + [t] else rest
  }

  /**
   * The post-processing in get_project_user_search_results, given the
   * `found` result of the user search: every match gets role User, and a
   * search string of more than one word replaces the already-in-project
   * list by the words of the search string found in it.
   */
  method GetProjectUserSearchResults(search: string, found: SearchResult) returns (r: SearchResult)
    ensures |r.matches| == |found.matches|
    ensures forall i :: 0 <= i < |r.matches| ==> r.matches[i] == found.matches[i].(role := Some(ProjectUserRole.User))
    ensures r.usersAlreadyInProject ==
      if |Split(search)| > 1 then KeepIn(Split(search), found.usersAlreadyInProject) else found.usersAlreadyInProject
  {
    var matches := found.matches;
    var i := 0;
    while i < |matches|
      invariant 0 <= i <= |matches| && |matches| == |found.matches|
      invariant forall k :: 0 <= k < i ==> matches[k] == found.matches[k].(role := Some(ProjectUserRole.User))
      invariant forall k :: i <= k < |matches| ==> matches[k] == found.matches[k]
    {
      matches := matches[i := matches[i].(role := Some(ProjectUserRole.User))];
      i := i + 1;
    }
    var already := found.usersAlreadyInProject;
    var tokens := Split(search);
    if |tokens| > 1 {
      already := KeepTokens(tokens, found.usersAlreadyInProject);
    }
    r := SearchResult(matches, already);
  }

  /** The loop over the search words that keeps those already in the project. */
  method KeepTokens(tokens: seq<string>, already: seq<string>) returns (kept: seq<string>)
    ensures kept == KeepIn(tokens, already)
  {
    kept := [];
    var j := 0;
    while j < |tokens|
      invariant 0 <= j <= |tokens|
      invariant kept == KeepIn(tokens[..j], already)
    {
      assert tokens[..j + 1][..j] == tokens[..j];
      if tokens[j] in already {
        kept := kept + [tokens[j]];
      }
      j := j + 1;
    }
    assert tokens[..|tokens|] == tokens;
  }
}
