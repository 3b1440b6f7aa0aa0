/**
 * The skill catalogues of the mining step, the names of the columns they
 * produce, and the word-delimited literal match that sets each column
 * (backend/mineria.py:43-60).
 */
module Skills {
  import opened Wrappers
  import opened Text

  // ------------------------------------------------ catalogues

  const HardSkillCount: int := 45
  const SoftSkillCount: int := 11

  /** The technical skills, in catalogue order. */
  function HardSkill(k: nat): string
    requires k < HardSkillCount
  {
    match k
    case 0 => "python"
    case 1 => "java"
    case 2 => "sql"
    case 3 => "_net"
    case 4 => "javascript"
    case 5 => "html"
    case 6 => "css"
    case 7 => "django"
    case 8 => "flask"
    case 9 => "react"
    case 10 => "angular"
    case 11 => "node"
    case 12 => "power bi"
    case 13 => "sap"
    case 14 => "aws"
    case 15 => "azure"
    case 16 => "git"
    case 17 => "github"
    case 18 => "ci/cd"
    case 19 => "linux"
    case 20 => "docker"
    case 21 => "kubernetes"
    case 22 => "etl"
    case 23 => "big data"
    case 24 => "data lake"
    case 25 => "postgresql"
    case 26 => "mysql"
    case 27 => "nosql"
    case 28 => "mongodb"
    case 29 => "cloud"
    case 30 => "bash"
    case 31 => "jira"
    case 32 => "excel"
    case 33 => "autocad"
    case 34 => "r"
    case 35 => "office"
    case 36 => "google_workspace"
    case 37 => "matlab"
    case 38 => "project"
    case 39 => "solidworks"
    case 40 => "Manejo_de_datos"
    case 41 => "seguridad"
    case 42 => "desarrollo_web"
    case 43 => "gestión_proyectos"
    case _ => "Mejora_procesos"
  }

  /** The soft skills, in catalogue order. */
  function SoftSkill(k: nat): string
    requires k < SoftSkillCount
  {
    match k
    case 0 => "comunicación"
    case 1 => "trabajo en equipo"
    case 2 => "proactividad"
    case 3 => "compromiso"
    case 4 => "adaptabilidad"
    case 5 => "liderazgo"
    case 6 => "responsabilidad"
    case 7 => "creatividad"
    case 8 => "resolución de problemas"
    case 9 => "orientación al cliente"
    case _ => "pensamiento crítico"
  }

  const HardSkills: seq<string> := seq(HardSkillCount, k requires 0 <= k < HardSkillCount => HardSkill(k))
  const SoftSkills: seq<string> := seq(SoftSkillCount, k requires 0 <= k < SoftSkillCount => SoftSkill(k))

  /** Every entry of both catalogues, technical ones first: the order in which columns are added. */
  const Catalogue: seq<string> := HardSkills + SoftSkills

  // ------------------------------------------------ column names

  /** `f"hard_{skill.replace('/', '_').replace(' ', '_')}"` */
  function HardColumn(skill: string): string {
    "hard_" + ReplaceAll(ReplaceAll(skill, "/", "_"), " ", "_")
  }

  /** `f"soft_{skill.replace(' ', '_')}"` */
  function SoftColumn(skill: string): string {
    "soft_" + ReplaceAll(skill, " ", "_")
  }

  /** Position-wise view of the replacements: spaces (and, for technical skills, slashes) become `_`. */
  function Underscored(s: string, slashToo: bool): (r: string)
    ensures |r| == |s|
    ensures forall i :: 0 <= i < |s| ==>
      r[i] == if s[i] == ' ' || (slashToo && s[i] == '/') then '_' else s[i]
  {
    seq(|s|, i requires 0 <= i < |s| => if s[i] == ' ' || (slashToo && s[i] == '/') then '_' else s[i])
  }

  lemma HardColumnByPosition(skill: string)
    ensures HardColumn(skill) == "hard_" + Underscored(skill, true)
  {
    ReplaceAllChar(skill, '/', '_');
    var t := ReplaceAll(skill, "/", "_");
    ReplaceAllChar(t, ' ', '_');
    assert ReplaceAll(t, " ", "_") == Underscored(skill, true);
  }

  lemma SoftColumnByPosition(skill: string)
    ensures SoftColumn(skill) == "soft_" + Underscored(skill, false)
  {
    ReplaceAllChar(skill, ' ', '_');
    assert ReplaceAll(skill, " ", "_") == Underscored(skill, false);
  }

  /** The column names, written out. */
  function HardColumnName(k: nat): string
    requires k < HardSkillCount
  {
    match k
    case 0 => "hard_python"
    case 1 => "hard_java"
    case 2 => "hard_sql"
    case 3 => "hard__net"
    case 4 => "hard_javascript"
    case 5 => "hard_html"
    case 6 => "hard_css"
    case 7 => "hard_django"
    case 8 => "hard_flask"
    case 9 => "hard_react"
    case 10 => "hard_angular"
    case 11 => "hard_node"
    case 12 => "hard_power_bi"
    case 13 => "hard_sap"
    case 14 => "hard_aws"
    case 15 => "hard_azure"
    case 16 => "hard_git"
    case 17 => "hard_github"
    case 18 => "hard_ci_cd"
    case 19 => "hard_linux"
    case 20 => "hard_docker"
    case 21 => "hard_kubernetes"
    case 22 => "hard_etl"
    case 23 => "hard_big_data"
    case 24 => "hard_data_lake"
    case 25 => "hard_postgresql"
    case 26 => "hard_mysql"
    case 27 => "hard_nosql"
    case 28 => "hard_mongodb"
    case 29 => "hard_cloud"
    case 30 => "hard_bash"
    case 31 => "hard_jira"
    case 32 => "hard_excel"
    case 33 => "hard_autocad"
    case 34 => "hard_r"
    case 35 => "hard_office"
    case 36 => "hard_google_workspace"
    case 37 => "hard_matlab"
    case 38 => "hard_project"
    case 39 => "hard_solidworks"
    case 40 => "hard_Manejo_de_datos"
    case 41 => "hard_seguridad"
    case 42 => "hard_desarrollo_web"
    case 43 => "hard_gestión_proyectos"
    case _ => "hard_Mejora_procesos"
  }

  function SoftColumnName(k: nat): string
    requires k < SoftSkillCount
  {
    match k
    case 0 => "soft_comunicación"
    case 1 => "soft_trabajo_en_equipo"
    case 2 => "soft_proactividad"
    case 3 => "soft_compromiso"
    case 4 => "soft_adaptabilidad"
    case 5 => "soft_liderazgo"
    case 6 => "soft_responsabilidad"
    case 7 => "soft_creatividad"
    case 8 => "soft_resolución_de_problemas"
    case 9 => "soft_orientación_al_cliente"
    case _ => "soft_pensamiento_crítico"
  }

  // One fact per catalogue entry: the literal is the name the replacements produce.
  lemma HardColumnOf0() ensures "hard_" + Underscored(HardSkill(0), true) == HardColumnName(0) {}
  lemma HardColumnOf1() ensures "hard_" + Underscored(HardSkill(1), true) == HardColumnName(1) {}
  lemma HardColumnOf2() ensures "hard_" + Underscored(HardSkill(2), true) == HardColumnName(2) {}
  lemma HardColumnOf3() ensures "hard_" + Underscored(HardSkill(3), true) == HardColumnName(3) {}
  lemma HardColumnOf4() ensures "hard_" + Underscored(HardSkill(4), true) == HardColumnName(4) {}
  lemma HardColumnOf5() ensures "hard_" + Underscored(HardSkill(5), true) == HardColumnName(5) {}
  lemma HardColumnOf6() ensures "hard_" + Underscored(HardSkill(6), true) == HardColumnName(6) {}
  lemma HardColumnOf7() ensures "hard_" + Underscored(HardSkill(7), true) == HardColumnName(7) {}
  lemma HardColumnOf8() ensures "hard_" + Underscored(HardSkill(8), true) == HardColumnName(8) {}
  lemma HardColumnOf9() ensures "hard_" + Underscored(HardSkill(9), true) == HardColumnName(9) {}
  lemma HardColumnOf10() ensures "hard_" + Underscored(HardSkill(10), true) == HardColumnName(10) {}
  lemma HardColumnOf11() ensures "hard_" + Underscored(HardSkill(11), true) == HardColumnName(11) {}
  lemma HardColumnOf12() ensures "hard_" + Underscored(HardSkill(12), true) == HardColumnName(12) {}
  lemma HardColumnOf13() ensures "hard_" + Underscored(HardSkill(13), true) == HardColumnName(13) {}
  lemma HardColumnOf14() ensures "hard_" + Underscored(HardSkill(14), true) == HardColumnName(14) {}
  lemma HardColumnOf15() ensures "hard_" + Underscored(HardSkill(15), true) == HardColumnName(15) {}
  lemma HardColumnOf16() ensures "hard_" + Underscored(HardSkill(16), true) == HardColumnName(16) {}
  lemma HardColumnOf17() ensures "hard_" + Underscored(HardSkill(17), true) == HardColumnName(17) {}
  lemma HardColumnOf18() ensures "hard_" + Underscored(HardSkill(18), true) == HardColumnName(18) {}
  lemma HardColumnOf19() ensures "hard_" + Underscored(HardSkill(19), true) == HardColumnName(19) {}
  lemma HardColumnOf20() ensures "hard_" + Underscored(HardSkill(20), true) == HardColumnName(20) {}
  lemma HardColumnOf21() ensures "hard_" + Underscored(HardSkill(21), true) == HardColumnName(21) {}
  lemma HardColumnOf22() ensures "hard_" + Underscored(HardSkill(22), true) == HardColumnName(22) {}
  lemma HardColumnOf23() ensures "hard_" + Underscored(HardSkill(23), true) == HardColumnName(23) {}
  lemma HardColumnOf24() ensures "hard_" + Underscored(HardSkill(24), true) == HardColumnName(24) {}
  lemma HardColumnOf25() ensures "hard_" + Underscored(HardSkill(25), true) == HardColumnName(25) {}
  lemma HardColumnOf26() ensures "hard_" + Underscored(HardSkill(26), true) == HardColumnName(26) {}
  lemma HardColumnOf27() ensures "hard_" + Underscored(HardSkill(27), true) == HardColumnName(27) {}
  lemma HardColumnOf28() ensures "hard_" + Underscored(HardSkill(28), true) == HardColumnName(28) {}
  lemma HardColumnOf29() ensures "hard_" + Underscored(HardSkill(29), true) == HardColumnName(29) {}
  lemma HardColumnOf30() ensures "hard_" + Underscored(HardSkill(30), true) == HardColumnName(30) {}
  lemma HardColumnOf31() ensures "hard_" + Underscored(HardSkill(31), true) == HardColumnName(31) {}
  lemma HardColumnOf32() ensures "hard_" + Underscored(HardSkill(32), true) == HardColumnName(32) {}
  lemma HardColumnOf33() ensures "hard_" + Underscored(HardSkill(33), true) == HardColumnName(33) {}
  lemma HardColumnOf34() ensures "hard_" + Underscored(HardSkill(34), true) == HardColumnName(34) {}
  lemma HardColumnOf35() ensures "hard_" + Underscored(HardSkill(35), true) == HardColumnName(35) {}
  lemma HardColumnOf36() ensures "hard_" + Underscored(HardSkill(36), true) == HardColumnName(36) {}
  lemma HardColumnOf37() ensures "hard_" + Underscored(HardSkill(37), true) == HardColumnName(37) {}
  lemma HardColumnOf38() ensures "hard_" + Underscored(HardSkill(38), true) == HardColumnName(38) {}
  lemma HardColumnOf39() ensures "hard_" + Underscored(HardSkill(39), true) == HardColumnName(39) {}
  lemma HardColumnOf40() ensures "hard_" + Underscored(HardSkill(40), true) == HardColumnName(40) {}
  lemma HardColumnOf41() ensures "hard_" + Underscored(HardSkill(41), true) == HardColumnName(41) {}
  lemma HardColumnOf42() ensures "hard_" + Underscored(HardSkill(42), true) == HardColumnName(42) {}
  lemma HardColumnOf43() ensures "hard_" + Underscored(HardSkill(43), true) == HardColumnName(43) {}
  lemma HardColumnOf44() ensures "hard_" + Underscored(HardSkill(44), true) == HardColumnName(44) {}
  lemma SoftColumnOf0() ensures "soft_" + Underscored(SoftSkill(0), false) == SoftColumnName(0) {}
  lemma SoftColumnOf1() ensures "soft_" + Underscored(SoftSkill(1), false) == SoftColumnName(1) {}
  lemma SoftColumnOf2() ensures "soft_" + Underscored(SoftSkill(2), false) == SoftColumnName(2) {}
  lemma SoftColumnOf3() ensures "soft_" + Underscored(SoftSkill(3), false) == SoftColumnName(3) {}
  lemma SoftColumnOf4() ensures "soft_" + Underscored(SoftSkill(4), false) == SoftColumnName(4) {}
  lemma SoftColumnOf5() ensures "soft_" + Underscored(SoftSkill(5), false) == SoftColumnName(5) {}
  lemma SoftColumnOf6() ensures "soft_" + Underscored(SoftSkill(6), false) == SoftColumnName(6) {}
  lemma SoftColumnOf7() ensures "soft_" + Underscored(SoftSkill(7), false) == SoftColumnName(7) {}
  lemma SoftColumnOf8() ensures "soft_" + Underscored(SoftSkill(8), false) == SoftColumnName(8) {}
  lemma SoftColumnOf9() ensures "soft_" + Underscored(SoftSkill(9), false) == SoftColumnName(9) {}
  lemma SoftColumnOf10() ensures "soft_" + Underscored(SoftSkill(10), false) == SoftColumnName(10) {}

  lemma HardColumnNameIs(k: nat)
    requires k < HardSkillCount
    ensures HardColumn(HardSkill(k)) == HardColumnName(k)
  {
    HardColumnByPosition(HardSkill(k));
    if k < 5 { HardColumnsChunk0(k); }
    else if k < 10 { HardColumnsChunk1(k); }
    else if k < 15 { HardColumnsChunk2(k); }
    else if k < 20 { HardColumnsChunk3(k); }
    else if k < 25 { HardColumnsChunk4(k); }
    else if k < 30 { HardColumnsChunk5(k); }
    else if k < 35 { HardColumnsChunk6(k); }
    else if k < 40 { HardColumnsChunk7(k); }
    else if k < 45 { HardColumnsChunk8(k); }
  }

  lemma HardColumnsChunk0(k: nat)
    requires 0 <= k < 5
    ensures "hard_" + Underscored(HardSkill(k), true) == HardColumnName(k)
  {
    if k == 0 { HardColumnOf0(); }
    else if k == 1 { HardColumnOf1(); }
    else if k == 2 { HardColumnOf2(); }
    else if k == 3 { HardColumnOf3(); }
    else if k == 4 { HardColumnOf4(); }
  }

  lemma HardColumnsChunk1(k: nat)
    requires 5 <= k < 10
    ensures "hard_" + Underscored(HardSkill(k), true) == HardColumnName(k)
  {
    if k == 5 { HardColumnOf5(); }
    else if k == 6 { HardColumnOf6(); }
    else if k == 7 { HardColumnOf7(); }
    else if k == 8 { HardColumnOf8(); }
    else if k == 9 { HardColumnOf9(); }
  }

  lemma HardColumnsChunk2(k: nat)
    requires 10 <= k < 15
    ensures "hard_" + Underscored(HardSkill(k), true) == HardColumnName(k)
  {
    if k == 10 { HardColumnOf10(); }
    else if k == 11 { HardColumnOf11(); }
    else if k == 12 { HardColumnOf12(); }
    else if k == 13 { HardColumnOf13(); }
    else if k == 14 { HardColumnOf14(); }
  }

  lemma HardColumnsChunk3(k: nat)
    requires 15 <= k < 20
    ensures "hard_" + Underscored(HardSkill(k), true) == HardColumnName(k)
  {
    if k == 15 { HardColumnOf15(); }
    else if k == 16 { HardColumnOf16(); }
    else if k == 17 { HardColumnOf17(); }
    else if k == 18 { HardColumnOf18(); }
    else if k == 19 { HardColumnOf19(); }
  }

  lemma HardColumnsChunk4(k: nat)
    requires 20 <= k < 25
    ensures "hard_" + Underscored(HardSkill(k), true) == HardColumnName(k)
  {
    if k == 20 { HardColumnOf20(); }
    else if k == 21 { HardColumnOf21(); }
    else if k == 22 { HardColumnOf22(); }
    else if k == 23 { HardColumnOf23(); }
    else if k == 24 { HardColumnOf24(); }
  }

  lemma HardColumnsChunk5(k: nat)
    requires 25 <= k < 30
    ensures "hard_" + Underscored(HardSkill(k), true) == HardColumnName(k)
  {
    if k == 25 { HardColumnOf25(); }
    else if k == 26 { HardColumnOf26(); }
    else if k == 27 { HardColumnOf27(); }
    else if k == 28 { HardColumnOf28(); }
    else if k == 29 { HardColumnOf29(); }
  }

  lemma HardColumnsChunk6(k: nat)
    requires 30 <= k < 35
    ensures "hard_" + Underscored(HardSkill(k), true) == HardColumnName(k)
  {
    if k == 30 { HardColumnOf30(); }
    else if k == 31 { HardColumnOf31(); }
    else if k == 32 { HardColumnOf32(); }
    else if k == 33 { HardColumnOf33(); }
    else if k == 34 { HardColumnOf34(); }
  }

  lemma HardColumnsChunk7(k: nat)
    requires 35 <= k < 40
    ensures "hard_" + Underscored(HardSkill(k), true) == HardColumnName(k)
  {
    if k == 35 { HardColumnOf35(); }
    else if k == 36 { HardColumnOf36(); }
    else if k == 37 { HardColumnOf37(); }
    else if k == 38 { HardColumnOf38(); }
    else if k == 39 { HardColumnOf39(); }
  }

  lemma HardColumnsChunk8(k: nat)
    requires 40 <= k < 45
    ensures "hard_" + Underscored(HardSkill(k), true) == HardColumnName(k)
  {
    if k == 40 { HardColumnOf40(); }
    else if k == 41 { HardColumnOf41(); }
    else if k == 42 { HardColumnOf42(); }
    else if k == 43 { HardColumnOf43(); }
    else if k == 44 { HardColumnOf44(); }
  }



  lemma SoftColumnNameIs(k: nat)
    requires k < SoftSkillCount
    ensures SoftColumn(SoftSkill(k)) == SoftColumnName(k)
  {
    SoftColumnByPosition(SoftSkill(k));
    if k == 0 { SoftColumnOf0(); }
    else if k == 1 { SoftColumnOf1(); }
    else if k == 2 { SoftColumnOf2(); }
    else if k == 3 { SoftColumnOf3(); }
    else if k == 4 { SoftColumnOf4(); }
    else if k == 5 { SoftColumnOf5(); }
    else if k == 6 { SoftColumnOf6(); }
    else if k == 7 { SoftColumnOf7(); }
    else if k == 8 { SoftColumnOf8(); }
    else if k == 9 { SoftColumnOf9(); }
    else { SoftColumnOf10(); }
  }

  lemma HardColumnNamesDistinct()
    ensures forall i, j :: 0 <= i < j < HardSkillCount ==> HardColumnName(i) != HardColumnName(j)
  {
  }

  lemma SoftColumnNamesDistinct()
    ensures forall i, j :: 0 <= i < j < SoftSkillCount ==> SoftColumnName(i) != SoftColumnName(j)
  {
  }

  /** The columns the two loops add, in the order they add them. */
  const SkillColumns: seq<string> :=
    seq(HardSkillCount, k requires 0 <= k < HardSkillCount => HardColumn(HardSkill(k)))
    + seq(SoftSkillCount, k requires 0 <= k < SoftSkillCount => SoftColumn(SoftSkill(k)))

  lemma HardColumnsListed()
    ensures forall k :: 0 <= k < HardSkillCount ==> SkillColumns[k] == HardColumnName(k)
  {
    forall k | 0 <= k < HardSkillCount ensures SkillColumns[k] == HardColumnName(k) {
      HardColumnNameIs(k);
    }
  }

  lemma SoftColumnsListed()
    ensures forall k :: 0 <= k < SoftSkillCount ==> SkillColumns[HardSkillCount + k] == SoftColumnName(k)
  {
    forall k | 0 <= k < SoftSkillCount ensures SkillColumns[HardSkillCount + k] == SoftColumnName(k) {
      SoftColumnNameIs(k);
    }
  }

  /** The kind prefix of every column. */
  lemma SkillColumnPrefixes()
    ensures |SkillColumns| == |Catalogue| == HardSkillCount + SoftSkillCount
    ensures forall i :: 0 <= i < HardSkillCount ==> StartsWith(SkillColumns[i], "hard_")
    ensures forall i :: HardSkillCount <= i < |SkillColumns| ==> StartsWith(SkillColumns[i], "soft_")
  {
    forall i | 0 <= i < |SkillColumns|
      ensures StartsWith(SkillColumns[i], if i < HardSkillCount then "hard_" else "soft_")
    {
    }
  }

  lemma HardColumnsApart()
    ensures forall i, j :: 0 <= i < j < HardSkillCount ==> SkillColumns[i] != SkillColumns[j]
  {
    HardColumnsListed();
    HardColumnNamesDistinct();
  }

  lemma SoftColumnsApart()
    ensures forall i, j :: HardSkillCount <= i < j < |SkillColumns| ==> SkillColumns[i] != SkillColumns[j]
  {
    SoftColumnsListed();
    SoftColumnNamesDistinct();
    forall i, j | HardSkillCount <= i < j < |SkillColumns| ensures SkillColumns[i] != SkillColumns[j] {
      assert SoftColumnName(i - HardSkillCount) != SoftColumnName(j - HardSkillCount);
    }
  }

  lemma KindsApart()
    ensures forall i, j :: 0 <= i < HardSkillCount <= j < |SkillColumns| ==> SkillColumns[i] != SkillColumns[j]
  {
    SkillColumnPrefixes();
    forall i, j | 0 <= i < HardSkillCount <= j < |SkillColumns| ensures SkillColumns[i] != SkillColumns[j] {
      assert SkillColumns[i][0] == 'h' && SkillColumns[j][0] == 's';
    }
  }

  /**
   * Each catalogue entry yields exactly one column: the 56 names are pairwise
   * distinct, so no iteration of the two loops overwrites another's column.
   */
  lemma SkillColumnsDistinct()
    ensures forall i, j :: 0 <= i < j < |SkillColumns| ==> SkillColumns[i] != SkillColumns[j]
  {
    HardColumnsApart();
    SoftColumnsApart();
    KindsApart();
  }

  /** The `k`-th technical skill is the `k`-th catalogue entry and gives the `k`-th column. */
  lemma HardEntry(k: nat)
    requires k < HardSkillCount
    ensures Catalogue[k] == HardSkills[k] && SkillColumns[k] == HardColumn(HardSkills[k])
  {
  }

  /** The `k`-th soft skill follows the technical ones, both in the catalogue and among the columns. */
  lemma SoftEntry(k: nat)
    requires k < SoftSkillCount
    ensures Catalogue[HardSkillCount + k] == SoftSkills[k]
    ensures SkillColumns[HardSkillCount + k] == SoftColumn(SoftSkills[k])
    ensures |Catalogue| == |SkillColumns| == HardSkillCount + SoftSkillCount
  {
  }

  // ------------------------------------------------ `\b{re.escape(skill)}\b`

  /** Python's `\b` at position `i`: exactly one of the neighbouring characters is a word character. */
  predicate IsBoundary(s: string, i: int)
    requires 0 <= i <= |s|
  {
    (i > 0 && IsWordChar(s[i - 1])) != (i < |s| && IsWordChar(s[i]))
  }

  /** The literal `w` occurs at `i` with a word boundary on both sides. */
  predicate WordAt(s: string, w: string, i: int) {
    OccursAt(s, w, i) && IsBoundary(s, i) && IsBoundary(s, i + |w|)
  }

  /** `str.contains(rf'\b{re.escape(w)}\b', regex=True)`: case-sensitive, metacharacters literal. */
  predicate ContainsWord(s: string, w: string) {
    exists i | 0 <= i <= |s| :: WordAt(s, w, i)
  }

  /** The search the regular-expression engine performs: the first position from `from` where the pattern matches. */
  function FindWord(s: string, w: string, from: nat): (r: Option<nat>)
    requires from <= |s| + 1
    ensures r.Some? ==> from <= r.value <= |s| && WordAt(s, w, r.value)
    ensures r.Some? ==> forall j :: from <= j < r.value ==> !WordAt(s, w, j)
    ensures r.None? ==> forall j :: from <= j <= |s| ==> !WordAt(s, w, j)
    decreases |s| + 1 - from
  {
    if from > |s| then None
    else if WordAt(s, w, from) then Some(from)
    else FindWord(s, w, from + 1)
  }

  /** The scan finds a match exactly when one exists. */
  lemma FindWordComplete(s: string, w: string)
    ensures FindWord(s, w, 0).Some? <==> ContainsWord(s, w)
  {
  }

  /** A word match is in particular a plain substring occurrence. */
  lemma ContainsWordContains(s: string, w: string)
    requires ContainsWord(s, w)
    ensures Contains(s, w)
  {
  }

  /** The one-letter skill `r` is not found inside `react`, but is found as a separate word. */
  lemma SingleLetterSkill()
    ensures !ContainsWord("react", "r")
    ensures ContainsWord("r y python", "r")
  {
    assert WordAt("r y python", "r", 0) by {
      assert "r y python"[0..1] == "r";
    }
    forall i | 0 <= i <= 5 ensures !WordAt("react", "r", i) {
      if i == 0 {
        assert !IsBoundary("react", 1);
      }
    }
  }

  /** One flag per entry of `catalogue`, in its order: the text scanned for each literal in turn. */
  function DetectIn(text: string, catalogue: seq<string>): (flags: seq<bool>)
    ensures |flags| == |catalogue|
  {
    seq(|catalogue|, k requires 0 <= k < |catalogue| => FindWord(text, catalogue[k], 0).Some?)
  }

  /** One flag per catalogue entry, in catalogue order: `texto_skills` scanned for each literal. */
  function DetectSkills(text: string): (flags: seq<bool>)
    ensures |flags| == HardSkillCount + SoftSkillCount
  {
    seq(|Catalogue|, k requires 0 <= k < |Catalogue| => FindWord(text, Catalogue[k], 0).Some?)
  }

  lemma DetectSkillsIn(text: string)
    ensures DetectSkills(text) == DetectIn(text, Catalogue)
  {
  }

  /** A flag is set exactly when its literal occurs in the text between word boundaries. */
  lemma DetectSkillsMeaning(text: string, k: nat)
    requires k < |Catalogue|
    ensures DetectSkills(text)[k] <==> ContainsWord(text, Catalogue[k])
  {
    FindWordComplete(text, Catalogue[k]);
  }
}
