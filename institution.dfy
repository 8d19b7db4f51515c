/**
 * Choosing a project's institution from its PI's e-mail domain
 * (coldfront/core/project/utils/institution_utils.py).
 *
 * The institution map setting is a dictionary from e-mail domains to
 * institution names; it is modelled as its items in iteration order.
 */
module InstitutionUtils {
  import opened Wrappers
  import opened Text
  import opened Store

  type InstitutionMap = seq<(string, string)>

  /** The outcome of determine_automated_institution_choice: the institution returned, or the TypeError it raises. */
  datatype Choice = Chosen(institution: string) | RaisesTypeError

  function CountChar(s: string, c: char): nat
  {
    if s == [] then 0 else (if s[0] == c then 1 else 0) + CountChar(s[1..], c)
  }

  /** The text after the first `c` in `s`. */
  function AfterFirst(s: string, c: char): (r: string)
    requires CountChar(s, c) > 0
    ensures exists i :: 0 <= i < |s| && s[i] == c && r == s[i + 1..] && CountChar(r, c) == CountChar(s, c) - 1
  {
    if s[0] == c then
      assert s[0 + 1..] == s[1..];
      s[1..]
    else
      var r := AfterFirst(s[1..], c);
      var i :| 0 <= i < |s[1..]| && s[1..][i] == c && r == s[1..][i + 1..] && CountChar(r, c) == CountChar(s[1..], c) - 1;
      assert s[i + 1] == c && r == s[i + 2..];
      r
  }

  /**
   * The domain that `_, domain = email.split("@")` unpacks: present exactly
   * when the address contains one '@', and then the text after it.
   */
  function EmailDomain(email: string): (r: Option<string>)
    ensures r.Some? <==> CountChar(email, '@') == 1
    ensures r.Some? ==> CountChar(r.value, '@') == 0
    ensures r.Some? ==> exists i :: 0 <= i < |email| && email[i] == '@' && r.value == email[i + 1..]
  {
    if CountChar(email, '@') == 1 then Some(AfterFirst(email, '@')) else None
  }

  lemma {:induction false} CountCharAppend(a: string, b: string, c: char)
    ensures CountChar(a + b, c) == CountChar(a, c) + CountChar(b, c)
  {
    if a == [] {
      assert a + b == b;
    } else {
      assert (a + b)[1..] == a[1..] + b;
      CountCharAppend(a[1..], b, c);
    }
  }

  /** An address `local@domain` with no other '@' has domain `domain`. */
  lemma EmailDomainOf(local: string, domain: string)
    requires CountChar(local, '@') == 0 && CountChar(domain, '@') == 0
    ensures EmailDomain(local + "@" + domain) == Some(domain)
  {
    var email := local + "@" + domain;
    CountCharAppend(local, "@", '@');
    CountCharAppend(local + "@", domain, '@');
    var r := EmailDomain(email).value;
    var i :| 0 <= i < |email| && email[i] == '@' && r == email[i + 1..];
    if i < |local| {
      CountCharAt(local, i, '@');
    } else if i > |local| {
      CountCharAt(domain, i - |local| - 1, '@');
    }
    assert email[|local| + 1..] == domain;
  }

  lemma {:induction false} CountCharAt(s: string, i: nat, c: char)
    requires i < |s| && s[i] == c
    ensures CountChar(s, c) > 0
  {
    if i > 0 {
      CountCharAt(s[1..], i - 1, c);
    }
  }

  /** `institution_map.get(key)`: the value of the first item with that key. */
  function Lookup(m: InstitutionMap, key: string): (r: Option<string>)
    ensures r.Some? <==> exists i :: 0 <= i < |m| && m[i].0 == key
    ensures r.Some? ==> exists i :: 0 <= i < |m| && m[i] == (key, r.value)
  {
    if m == [] then None
    else if m[0].0 == key then Some(m[0].1)
    else
      var r := Lookup(m[1..], key);
      assert forall i :: 1 <= i < |m| ==> m[i] == m[1..][i - 1];
      r
  }

  /** The value of the first item whose key occurs in `domain`. */
  function FirstSubstringMatch(m: InstitutionMap, domain: string): (r: Option<string>)
    ensures r.None? <==> forall i :: 0 <= i < |m| ==> !Contains(domain, m[i].0)
    ensures r.Some? ==>
      exists i :: && 0 <= i < |m| && Contains(domain, m[i].0) && r.value == m[i].1
                  && forall j :: 0 <= j < i ==> !Contains(domain, m[j].0)
  {
    if m == [] then None
    else if Contains(domain, m[0].0) then Some(m[0].1)
    else
      var r := FirstSubstringMatch(m[1..], domain);
      assert forall i :: 1 <= i < |m| ==> m[i] == m[1..][i - 1];
      if r.Some? then
        var i :| 0 <= i < |m[1..]| && Contains(domain, m[1..][i].0) && r.value == m[1..][i].1
          && forall j :: 0 <= j < i ==> !Contains(domain, m[1..][j].0);
        assert Contains(domain, m[i + 1].0) && r.value == m[i + 1].1;
        assert forall j :: 0 <= j < i + 1 ==> !Contains(domain, m[j].0) by {
          forall j | 0 <= j < i + 1 ensures !Contains(domain, m[j].0) {
            if j > 0 { assert m[j] == m[1..][j - 1]; }
          }
        }
        r
      else r
  }

  /**
   * What determine_automated_institution_choice decides for a PI address
   * `email` and the project's current institution `current`.
   */
  function InstitutionChoice(email: string, m: InstitutionMap, current: string): (r: Choice)
    ensures EmailDomain(email).None? ==> (r.RaisesTypeError? <==> m != [])
    ensures EmailDomain(email).None? && m == [] ==> r == Chosen(current)
    ensures EmailDomain(email).Some? ==> r.Chosen?
  {
    match EmailDomain(email)
    case None => if m == [] then Chosen(current) else RaisesTypeError
    case Some(domain) =>
      var direct := Lookup(m, domain);
      if direct.Some? && direct.value != "" then Chosen(direct.value)
      else
        match FirstSubstringMatch(m, domain)
        case Some(v) => Chosen(v)
        case None => Chosen(current)
  }

  /**
   * The order of preference: a non-empty exact-domain entry wins; failing
   * that, the first key that occurs in the domain; failing that, the
   * current institution.
   */
  lemma InstitutionChoicePreference(email: string, m: InstitutionMap, current: string, domain: string)
    requires EmailDomain(email) == Some(domain)
    ensures Lookup(m, domain).Some? && Lookup(m, domain).value != "" ==>
      InstitutionChoice(email, m, current) == Chosen(Lookup(m, domain).value)
    ensures (Lookup(m, domain).None? || Lookup(m, domain).value == "") ==>
      InstitutionChoice(email, m, current) == Chosen(FirstSubstringMatch(m, domain).GetOr(current))
    ensures (forall i :: 0 <= i < |m| ==> !Contains(domain, m[i].0)) ==>
      InstitutionChoice(email, m, current) == Chosen(current)
  {
    ContainsSelf(domain);
  }

  lemma ContainsSelf(s: string)
    ensures Contains(s, s)
  {
    assert s[..|s|] == s;
  }

  /**
   * determine_automated_institution_choice on project `p`: the map is
   * scanned in order with an early return, and the institution chosen is
   * written to the project, which is also what is returned. When the
   * address has no domain and the map is not empty, the first substring
   * test raises and nothing is written.
   */
  method DetermineAutomatedInstitutionChoice(db: Db, p: ProjectId, m: InstitutionMap) returns (r: Choice)
    requires db.Valid() && p in db.projects
    modifies db`projects
    ensures db.Valid()
    ensures r == InstitutionChoice(db.users[old(db.projects)[p].pi].email, m, old(db.projects)[p].institution)
    ensures r.Chosen? ==> db.projects == old(db.projects)[p := old(db.projects)[p].(institution := r.institution)]
    ensures r.RaisesTypeError? ==> db.projects == old(db.projects)
  {
    var project := db.projects[p];
    var email := db.users[project.pi].email;
    var domain := EmailDomain(email);
    if domain.Some? {
      var direct := Lookup(m, domain.value);
      if direct.Some? && direct.value != "" {
        db.projects := db.projects[p := project.(institution := direct.value)];
        return Chosen(direct.value);
      }
    }
    var i := 0;
    while i < |m|
      invariant 0 <= i <= |m|
      invariant domain.Some? ==> forall j :: 0 <= j < i ==> !Contains(domain.value, m[j].0)
      invariant domain.None? ==> i == 0
      invariant db.projects == old(db.projects)
    {
      if domain.None? {
        return RaisesTypeError;
      }
      if Contains(domain.value, m[i].0) {
        db.projects := db.projects[p := project.(institution := m[i].1)];
        FirstMatchAt(m, domain.value, i);
        return Chosen(m[i].1);
      }
      i := i + 1;
    }
    assert db.projects[p := project.(institution := project.institution)] == db.projects;
    return Chosen(project.institution);
  }

  /** When the `i`-th key is the first that occurs in the domain, it is the first substring match. */
  lemma FirstMatchAt(m: InstitutionMap, domain: string, i: nat)
    requires i < |m| && Contains(domain, m[i].0)
    requires forall j :: 0 <= j < i ==> !Contains(domain, m[j].0)
    ensures FirstSubstringMatch(m, domain) == Some(m[i].1)
  {
    var r := FirstSubstringMatch(m, domain);
    var k :| 0 <= k < |m| && Contains(domain, m[k].0) && r.value == m[k].1
      && forall j :: 0 <= j < k ==> !Contains(domain, m[j].0);
    assert k == i;
  }

  /**
   * add_institution: with the PROJECT_INSTITUTION_EMAIL_MAP setting absent
   * nothing happens; otherwise the choice above is made.
   */
  method AddInstitution(db: Db, p: ProjectId, setting: Option<InstitutionMap>) returns (raised: bool)
    requires db.Valid() && p in db.projects
    modifies db`projects
    ensures db.Valid()
    ensures setting.None? ==> !raised && db.projects == old(db.projects)
    ensures setting.Some? ==>
      var c := InstitutionChoice(db.users[old(db.projects)[p].pi].email, setting.value, old(db.projects)[p].institution);
      && (raised <==> c.RaisesTypeError?)
      && (c.Chosen? ==> db.projects == old(db.projects)[p := old(db.projects)[p].(institution := c.institution)])
      && (raised ==> db.projects == old(db.projects))
  {
    raised := false;
    if setting.Some? {
      var c := DetermineAutomatedInstitutionChoice(db, p, setting.value);
      raised := c.RaisesTypeError?;
    }
  }
}
