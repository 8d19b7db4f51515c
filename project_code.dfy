/**
 * Project codes: an upper-cased site prefix followed by the project's
 * primary key, zero-padded (coldfront/core/project/utils/project_code_utils.py).
 */
module ProjectCode {
  import opened Wrappers
  import opened Text
  import opened Store

  function Max(a: int, b: int): int { if a >= b then a else b }

  /** generate_project_code: `code.upper()` followed by `str(pk).zfill(padding)`. */
  function GenerateProjectCode(code: string, pk: int, padding: int): (r: string)
    ensures |r| >= |code| && r[..|code|] == Upper(code)
  {
    Upper(code) + ZFill(IntToString(pk), padding)
  }

  /** For a non-negative key the code is the prefix plus max(padding, number of digits) characters. */
  lemma ProjectCodeLength(code: string, pk: nat, padding: int)
    ensures |GenerateProjectCode(code, pk, padding)| == |code| + Max(padding, |NatToString(pk)|)
  {
    ZFillLength(NatToString(pk), padding);
  }

  /** A padding no wider than the key's digits (in particular padding 0) adds nothing. */
  lemma ProjectCodeNoPadding(code: string, pk: int, padding: int)
    requires padding <= |IntToString(pk)|
    ensures GenerateProjectCode(code, pk, padding) == Upper(code) + IntToString(pk)
  {
  }

  /**
   * The key can be read back: after the prefix come only digits, their
   * value is the key, and for a positive key removing the padding zeros
   * gives exactly `str(pk)`.
   */
  lemma {:induction false} ProjectCodeRoundTrip(code: string, pk: nat, padding: int)
    ensures var suffix := GenerateProjectCode(code, pk, padding)[|code|..];
      && AllDigits(suffix)
      && DecimalValue(suffix) == pk
      && (pk > 0 ==> StripLeadingZeros(suffix) == NatToString(pk))
  {
    var digits := NatToString(pk);
    var k := if padding > |digits| then padding - |digits| else 0;
    ZFillDigits(digits, padding);
    var r := GenerateProjectCode(code, pk, padding);
    assert r[|code|..] == Zeros(k) + digits;
    DecimalValueLeadingZeros(k, digits);
    DecimalValueOfNatToString(pk);
    if pk > 0 {
      StripZerosPrefix(k, digits);
    }
  }

  /** `getattr(settings, "PROJECT_CODE_PADDING", False) or 0`: an absent or zero setting is 0. */
  function PaddingSetting(setting: Option<int>): (padding: int)
    ensures padding == 0 <==> setting.None? || setting.value == 0
    ensures setting.Some? && setting.value != 0 ==> padding == setting.value
  {
    match setting
    case None => 0
    case Some(n) => if n != 0 then n else 0
  }

  /** A PROJECT_CODE setting that is present and a non-empty string switches the feature on. */
  predicate CodeEnabled(setting: Option<string>)
  {
    setting.Some? && setting.value != ""
  }

  /** The project after add_project_code_if_missing, for project `pk`. */
  function WithProjectCode(project: Project, pk: ProjectId, codeSetting: Option<string>, paddingSetting: Option<int>)
    : (r: Project)
    ensures r == project.(projectCode := r.projectCode)
    ensures CodeEnabled(codeSetting) && project.projectCode == "" ==>
      r.projectCode == GenerateProjectCode(codeSetting.value, pk, PaddingSetting(paddingSetting))
    ensures !(CodeEnabled(codeSetting) && project.projectCode == "") ==> r == project
  {
    if CodeEnabled(codeSetting) && project.projectCode == "" then
      project.(projectCode := GenerateProjectCode(codeSetting.value, pk, PaddingSetting(paddingSetting)))
    else project
  }

  /** After one call the code is set (or the feature is off), so a second call changes nothing. */
  lemma WithProjectCodeIdempotent(project: Project, pk: ProjectId, codeSetting: Option<string>, paddingSetting: Option<int>)
    ensures var once := WithProjectCode(project, pk, codeSetting, paddingSetting);
      WithProjectCode(once, pk, codeSetting, paddingSetting) == once
  {
    var once := WithProjectCode(project, pk, codeSetting, paddingSetting);
    if CodeEnabled(codeSetting) && project.projectCode == "" {
      assert |once.projectCode| >= |codeSetting.value| > 0;
    }
  }

  /** add_project_code_if_missing: only the project_code field of project `p` is written. */
  method AddProjectCodeIfMissing(db: Db, p: ProjectId, codeSetting: Option<string>, paddingSetting: Option<int>)
    requires db.Valid() && p in db.projects
    modifies db`projects
    ensures db.Valid()
    ensures db.projects == old(db.projects)[p := WithProjectCode(old(db.projects)[p], p, codeSetting, paddingSetting)]
  {
    var project := db.projects[p];
    if CodeEnabled(codeSetting) && project.projectCode == "" {
      var padding := PaddingSetting(paddingSetting);
      db.projects := db.projects[p := project.(projectCode := GenerateProjectCode(codeSetting.value, p, padding))];
    }
  }
}
