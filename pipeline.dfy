/**
 * `procesar_datos_computrabajo` (backend/mineria.py:4-140): from the rows of a
 * Computrabajo export to the classified, skill-annotated job table and the
 * audit summary shown by the front end.
 *
 * A raw row holds the cells of the eight columns the step reads; a missing
 * value (NaN) is `None`. An output row holds its six base cells, in the order
 * career, title, company, workday, modality, salary, and one flag per
 * catalogue entry.
 */
module Mining {
  import opened Wrappers
  import opened Text
  import opened Seqs
  import Salary
  import Skills
  import Careers
  import Sanitize

  type Cell = Option<string>

  datatype RawRow = RawRow(
    title: Cell, subtitle: Cell, description: Cell, requirements: Cell,
    company: Cell, salary: Cell, workday: Cell, modality: Cell)

  /** The export as read: the header line and the data rows. */
  datatype RawTable = RawTable(header: set<string>, rows: seq<RawRow>)

  /** The `KeyError` raised when a column the step reads is absent. */
  datatype MiningError = MissingColumn(column: string)

  /** One row of `df_final`: the six base cells, then the skill flags in catalogue order. */
  datatype JobRow = JobRow(cells: seq<Cell>, skills: seq<bool>)

  /** `resumen` (mineria.py:128-137). */
  datatype Summary = Summary(
    originales: nat, eliminados: nat, finales: nat, transformacionesSalario: nat,
    rellenos: seq<string>, columnasEliminadas: seq<string>, caracteresLimpiados: bool,
    habilidades: seq<string>)

  /** The five results: the table (with its column names), the summary, the skill columns and the two previews. */
  datatype Output = Output(
    columns: seq<string>, rows: seq<JobRow>, summary: Summary, detected: seq<string>,
    before: seq<RawRow>, after: seq<JobRow>)

  // ------------------------------------------------ constants

  /** The source columns the step reads, in the order it first touches them. */
  const RequiredColumns: seq<string> :=
    ["Salario", "Título", "Descripción", "Requerimientos", "Subtítulo", "Empresa", "Jornada", "Tipo_Asistencia"]

  const EngineeringKeywords: seq<string> :=
    ["ingeniería", "ingeniero", "industrial", "sistemas", "civil", "ambiental", "agrónoma", "minas"]

  const DroppedColumns: seq<string> :=
    ["Subtítulo", "Calificación", "URL_Empresa", "Región", "Requerimientos", "Contrato",
     "Descripción", "texto_skills", "Acerca_de_Empresa"]

  /** The base columns of the final table, after renaming. */
  const BaseColumns: seq<string> := ["career", "title", "company", "workday", "modality", "salary"]
  const BaseCount := 6

  /** Positions in `BaseColumns` of the columns filled with a placeholder, in filling order. */
  const FillPositions: seq<nat> := [2, 5, 4]

  const Placeholder := "No especificado"

  // ------------------------------------------------ missing columns

  /** The first `n` of `cols` are in the header. */
  predicate ColumnsPresent(header: set<string>, cols: seq<string>, n: nat)
    requires n <= |cols|
  {
    forall j :: 0 <= j < n ==> cols[j] in header
  }

  /** The first required column absent from the header. */
  function FirstMissing(header: set<string>, cols: seq<string>): (r: Option<string>)
    ensures r.None? <==> forall i :: 0 <= i < |cols| ==> cols[i] in header
    ensures r.Some? ==> exists i :: 0 <= i < |cols| && cols[i] == r.value && r.value !in header && ColumnsPresent(header, cols, i)
  {
    if cols == [] then None
    else if cols[0] !in header then Some(cols[0])
    else
      var r := FirstMissing(header, cols[1..]);
      assert r.Some? ==> exists i :: 0 <= i < |cols[1..]| && cols[1..][i] == r.value && r.value !in header && ColumnsPresent(header, cols[1..], i);
      assert r.Some? ==> exists i :: 1 <= i < |cols| && cols[i] == r.value && r.value !in header && ColumnsPresent(header, cols, i);
      r
  }

  // ------------------------------------------------ per-row texts

  /** `astype(str)`: a missing value prints as `nan`. */
  function AsText(cell: Cell): string {
    cell.GetOr("nan")
  }

  /** The lower-cased title (line 32). */
  function LowTitle(r: RawRow): string {
    LowerStr(AsText(r.title))
  }

  /** The lower-cased description (line 33). */
  function LowDescription(r: RawRow): string {
    LowerStr(AsText(r.description))
  }

  /** `contiene_palabra_ingenieria`: some keyword is a substring. */
  predicate MentionsEngineering(text: string) {
    exists i | 0 <= i < |EngineeringKeywords| :: Contains(text, EngineeringKeywords[i])
  }

  /** The domain filter of line 34. */
  predicate PassesDomainFilter(r: RawRow) {
    MentionsEngineering(LowTitle(r)) || MentionsEngineering(LowDescription(r))
  }

  predicate IsLineBreak(c: char) { c == '\r' || c == '\n' }

  /** `str.replace(r'[\r\n]+', ' ', regex=True)` */
  function Unify(s: string): string {
    ReplaceRuns(s, IsLineBreak, ' ')
  }

  /** `texto_skills` (line 40). */
  function SkillText(r: RawRow): string {
    Unify(LowDescription(r)) + " " + Unify(AsText(r.requirements))
  }

  /** `texto_total` (line 73): title, subtitle, description and requirements as they stand at line 76. */
  function CareerText(r: RawRow): string {
    LowTitle(r) + " " + LowerStr(AsText(r.subtitle)) + " " + Unify(LowDescription(r)) + " " + Unify(AsText(r.requirements))
  }

  function DetectedCareer(r: RawRow): string {
    Careers.DetectCareer(CareerText(r))
  }

  /** The career filter of line 78. */
  predicate Classified(r: RawRow) {
    DetectedCareer(r) != Careers.Unclassified
  }

  /** The rows left after both filters, in input order. */
  function Kept(rows: seq<RawRow>): seq<RawRow> {
    Where(Where(rows, PassesDomainFilter), Classified)
  }

  // ------------------------------------------------ per-row cells

  /** The cells of base columns 2 to 5, taken from the source row (the salary through its extraction). */
  function SourceCell(r: RawRow, p: nat): Cell
    requires 2 <= p < BaseCount
  {
    match p
    case 2 => r.company
    case 3 => r.workday
    case 4 => r.modality
    case _ => Salary.StoredSalary(r.salary)
  }

  /** The six base cells of a row with the given career, before cleaning. */
  function CellsWith(r: RawRow, career: string): (cells: seq<Cell>)
    ensures |cells| == BaseCount
    ensures forall p :: 2 <= p < BaseCount ==> cells[p] == SourceCell(r, p)
  {
    [Some(career), Some(LowTitle(r)), r.company, r.workday, r.modality, Salary.StoredSalary(r.salary)]
  }

  /** `fillna('No especificado')` on one cell. */
  function FillCell(c: Cell): (r: Cell)
    ensures r.Some?
    ensures c.Some? ==> r == c
  {
    Some(c.GetOr(Placeholder))
  }

  /** Fills the cells at the given positions, in turn. */
  function FillRow(cells: seq<Cell>, ps: seq<nat>): (r: seq<Cell>)
    requires forall i :: 0 <= i < |ps| ==> ps[i] < |cells|
    ensures |r| == |cells|
    ensures forall c :: 0 <= c < |cells| ==> r[c] == if c in ps then FillCell(cells[c]) else cells[c]
    decreases |ps|
  {
    if ps == [] then cells
    else
      var next := cells[ps[0] := FillCell(cells[ps[0]])];
      var r := FillRow(next, ps[1..]);
      assert forall c :: c in ps <==> c == ps[0] || c in ps[1..];
      r
  }

  /** The output row of a raw row with the given career. */
  function RowWith(r: RawRow, career: string): JobRow {
    JobRow(FillRow(MapSeq(Sanitize.CleanCell, CellsWith(r, career)), FillPositions), Skills.DetectSkills(SkillText(r)))
  }

  /** The output row of a raw row that survives both filters. */
  function Transform(r: RawRow): JobRow {
    RowWith(r, DetectedCareer(r))
  }

  /** Some kept row has nothing in base column `p` once cleaned. */
  predicate HasMissing(kept: seq<RawRow>, p: nat)
    requires 2 <= p < BaseCount
  {
    exists i :: 0 <= i < |kept| && Sanitize.CleanCell(SourceCell(kept[i], p)).None?
  }

  predicate FillablePositions(ps: seq<nat>) {
    forall i :: 0 <= i < |ps| ==> 2 <= ps[i] < BaseCount
  }

  /** What one turn of the filling loop appends to `rellenados`: the column's name when it has a gap. */
  function Recorded(kept: seq<RawRow>, p: nat): seq<string>
    requires 2 <= p < BaseCount
  {
    if HasMissing(kept, p) then [BaseColumns[p]] else []
  }

  /** `rellenados`: the names of the columns, among `ps`, that had a missing value. */
  function Rellenos(kept: seq<RawRow>, ps: seq<nat>): seq<string>
    requires FillablePositions(ps)
  {
    if ps == [] then [] else Rellenos(kept, ps[..|ps| - 1]) + Recorded(kept, ps[|ps| - 1])
  }

  lemma RellenosStep(kept: seq<RawRow>, ps: seq<nat>, p: nat)
    requires FillablePositions(ps)
    requires 2 <= p < BaseCount
    ensures FillablePositions(ps + [p])
    ensures Rellenos(kept, ps + [p]) == Rellenos(kept, ps) + Recorded(kept, p)
  {
    assert (ps + [p])[..|ps|] == ps;
  }

  predicate IsPresent(c: Cell) { c.Some? }

  function SalaryCell(j: JobRow): Cell {
    if |j.cells| == BaseCount then j.cells[5] else None
  }

  // ------------------------------------------------ the whole step

  /** The five results of a table that has every required column. */
  function Mined(rows: seq<RawRow>): Output {
    var kept := Kept(rows);
    var out := MapSeq(Transform, kept);
    var summary := Summary(
      |rows|, |rows| - |kept|, |kept|, Count(MapSeq(SalaryCell, out), IsPresent),
      Rellenos(kept, FillPositions), DroppedColumns, true, Skills.SkillColumns);
    Output(BaseColumns + Skills.SkillColumns, out, summary, Skills.SkillColumns, Take(rows, 5), Take(out, 5))
  }

  function Process(t: RawTable): Result<Output, MiningError> {
    match FirstMissing(t.header, RequiredColumns)
    case Some(c) => Failure(MissingColumn(c))
    case None => Success(Mined(t.rows))
  }

  // ------------------------------------------------ the step as the source performs it

  /** `df['texto_skills'].str.contains(...)` for one skill. */
  function SkillFlags(texts: seq<string>, skill: string): (flags: seq<bool>)
    ensures |flags| == |texts|
  {
    MapSeq((text: string) => Skills.FindWord(text, skill, 0).Some?, texts)
  }

  /** The first loop of lines 55-60: one column per technical skill, named `hard_…`. */
  method AddHardColumns(texts: seq<string>, hard: seq<string>) returns (names: seq<string>, flags: seq<seq<bool>>)
    ensures |names| == |flags| == |hard|
    ensures forall j :: 0 <= j < |hard| ==> names[j] == Skills.HardColumn(hard[j])
    ensures forall j :: 0 <= j < |hard| ==> flags[j] == SkillFlags(texts, hard[j])
  {
    names := [];
    flags := [];
    for k := 0 to |hard|
      invariant |names| == |flags| == k
      invariant forall j :: 0 <= j < k ==> names[j] == Skills.HardColumn(hard[j])
      invariant forall j :: 0 <= j < k ==> flags[j] == SkillFlags(texts, hard[j])
    {
      names := names + [Skills.HardColumn(hard[k])];
      flags := flags + [SkillFlags(texts, hard[k])];
    }
  }

  /** The second loop of lines 55-60: one column per soft skill, named `soft_…`. */
  method AddSoftColumns(texts: seq<string>, soft: seq<string>) returns (names: seq<string>, flags: seq<seq<bool>>)
    ensures |names| == |flags| == |soft|
    ensures forall j :: 0 <= j < |soft| ==> names[j] == Skills.SoftColumn(soft[j])
    ensures forall j :: 0 <= j < |soft| ==> flags[j] == SkillFlags(texts, soft[j])
  {
    names := [];
    flags := [];
    for k := 0 to |soft|
      invariant |names| == |flags| == k
      invariant forall j :: 0 <= j < k ==> names[j] == Skills.SoftColumn(soft[j])
      invariant forall j :: 0 <= j < k ==> flags[j] == SkillFlags(texts, soft[j])
    {
      names := names + [Skills.SoftColumn(soft[k])];
      flags := flags + [SkillFlags(texts, soft[k])];
    }
  }

  /** Both loops: the technical columns, then the soft ones. */
  method AddSkillColumns(texts: seq<string>, hard: seq<string>, soft: seq<string>)
    returns (names: seq<string>, flags: seq<seq<bool>>)
    ensures |names| == |flags| == |hard| + |soft|
    ensures forall j :: 0 <= j < |hard| ==> names[j] == Skills.HardColumn(hard[j])
    ensures forall j :: 0 <= j < |soft| ==> names[|hard| + j] == Skills.SoftColumn(soft[j])
    ensures forall j :: 0 <= j < |flags| ==> flags[j] == SkillFlags(texts, (hard + soft)[j])
  {
    var hardNames, hardFlags := AddHardColumns(texts, hard);
    var softNames, softFlags := AddSoftColumns(texts, soft);
    names := hardNames + softNames;
    flags := hardFlags + softFlags;
    forall j | 0 <= j < |flags| ensures flags[j] == SkillFlags(texts, (hard + soft)[j]) {
      if j < |hard| {
        assert flags[j] == hardFlags[j] && (hard + soft)[j] == hard[j];
      } else {
        assert flags[j] == softFlags[j - |hard|] && (hard + soft)[j] == soft[j - |hard|];
      }
    }
  }

  /** Over the two catalogues the loops produce exactly the listed column names. */
  lemma NamesAreSkillColumns(names: seq<string>)
    requires |names| == Skills.HardSkillCount + Skills.SoftSkillCount
    requires forall j :: 0 <= j < Skills.HardSkillCount ==> names[j] == Skills.HardColumn(Skills.HardSkills[j])
    requires forall j :: 0 <= j < Skills.SoftSkillCount ==>
      names[Skills.HardSkillCount + j] == Skills.SoftColumn(Skills.SoftSkills[j])
    ensures names == Skills.SkillColumns
  {
    Skills.SoftEntry(0);
    forall j | 0 <= j < |names| ensures names[j] == Skills.SkillColumns[j] {
      if j < Skills.HardSkillCount {
        Skills.HardEntry(j);
      } else {
        Skills.SoftEntry(j - Skills.HardSkillCount);
      }
    }
  }

  // Facts handed from one stage to the next: the columns hold, row by row, the cells of the kept rows.

  /** `raw` holds the six base columns of `kept`, with `careers` as their careers, before cleaning. */
  predicate RawColumnsOf(kept: seq<RawRow>, careers: seq<string>, raw: seq<seq<Cell>>) {
    |careers| == |kept| && |raw| == BaseCount
    && (forall c :: 0 <= c < |raw| ==> |raw[c]| == |kept|)
    && forall c, i :: 0 <= c < |raw| && 0 <= i < |kept| ==> raw[c][i] == CellsWith(kept[i], careers[i])[c]
  }

  /** `cleaned` holds the same columns, cleaned. */
  predicate CleanedColumnsOf(kept: seq<RawRow>, careers: seq<string>, cleaned: seq<seq<Cell>>) {
    |careers| == |kept| && |cleaned| == BaseCount
    && (forall c :: 0 <= c < |cleaned| ==> |cleaned[c]| == |kept|)
    && forall c, i :: 0 <= c < |cleaned| && 0 <= i < |kept| ==>
      cleaned[c][i] == Sanitize.CleanCell(CellsWith(kept[i], careers[i])[c])
  }

  /** `cols` is `cleaned` with the placeholder put into the gaps of company, salary and modality. */
  predicate FilledColumnsOf(cleaned: seq<seq<Cell>>, cols: seq<seq<Cell>>) {
    |cols| == |cleaned|
    && forall c :: 0 <= c < |cols| ==> cols[c] == if c in FillPositions then MapSeq(FillCell, cleaned[c]) else cleaned[c]
  }

  /** `flags` holds one column per entry of `catalogue` with the flags of the kept rows. */
  predicate FlagColumnsOf(kept: seq<RawRow>, flags: seq<seq<bool>>, catalogue: seq<string>) {
    |flags| == |catalogue|
    && (forall k :: 0 <= k < |flags| ==> |flags[k]| == |kept|)
    && forall k, i :: 0 <= k < |flags| && 0 <= i < |kept| ==>
      flags[k][i] == Skills.FindWord(SkillText(kept[i]), catalogue[k], 0).Some?
  }

  /** The loop of lines 86-87: every text column cleaned in turn. */
  method CleanColumns(raw: seq<seq<Cell>>) returns (cols: seq<seq<Cell>>)
    ensures |cols| == |raw|
    ensures forall c :: 0 <= c < |raw| ==> cols[c] == MapSeq(Sanitize.CleanCell, raw[c])
  {
    cols := raw;
    for j := 0 to |cols|
      invariant |cols| == |raw|
      invariant forall c :: 0 <= c < j ==> cols[c] == MapSeq(Sanitize.CleanCell, raw[c])
      invariant forall c :: j <= c < |cols| ==> cols[c] == raw[c]
    {
      cols := cols[j := MapSeq(Sanitize.CleanCell, cols[j])];
    }
  }

  lemma CleanedOfRaw(kept: seq<RawRow>, careers: seq<string>, raw: seq<seq<Cell>>, cleaned: seq<seq<Cell>>)
    requires RawColumnsOf(kept, careers, raw)
    requires |cleaned| == |raw|
    requires forall c :: 0 <= c < |raw| ==> cleaned[c] == MapSeq(Sanitize.CleanCell, raw[c])
    ensures CleanedColumnsOf(kept, careers, cleaned)
  {
  }

  /** The columns after the first `n` steps of the filling loop. */
  ghost function FilledAfter(cleaned: seq<seq<Cell>>, n: nat): (cols: seq<seq<Cell>>)
    requires |cleaned| == BaseCount && n <= |FillPositions|
    ensures |cols| == |cleaned|
    ensures forall c :: 0 <= c < |cols| ==>
      cols[c] == if c in FillPositions[..n] then MapSeq(FillCell, cleaned[c]) else cleaned[c]
  {
    if n == 0 then cleaned
    else
      var before := FilledAfter(cleaned, n - 1);
      var p := FillPositions[n - 1];
      assert FillPositions[..n] == FillPositions[..n - 1] + [p];
      before[p := MapSeq(FillCell, before[p])]
  }

  /** A column has a gap exactly when some kept row lacks that cell once cleaned. */
  lemma GapIsMissing(kept: seq<RawRow>, column: seq<Cell>, p: nat)
    requires 2 <= p < BaseCount
    requires |column| == |kept|
    requires forall i :: 0 <= i < |kept| ==> column[i] == Sanitize.CleanCell(SourceCell(kept[i], p))
    ensures (exists i :: 0 <= i < |column| && column[i].None?) <==> HasMissing(kept, p)
  {
    if exists i :: 0 <= i < |column| && column[i].None? {
      var i :| 0 <= i < |column| && column[i].None?;
      assert Sanitize.CleanCell(SourceCell(kept[i], p)).None?;
    }
  }

  /** Step `f` of the filling loop reads a column no earlier step filled. */
  lemma FillStepColumn(cleaned: seq<seq<Cell>>, f: nat)
    requires |cleaned| == BaseCount
    requires f < |FillPositions|
    ensures FilledAfter(cleaned, f)[FillPositions[f]] == cleaned[FillPositions[f]]
  {
    assert FillPositions[f] !in FillPositions[..f];
  }

  /** Step `f` records its column exactly when that column has a gap. */
  lemma FillStep(kept: seq<RawRow>, careers: seq<string>, cleaned: seq<seq<Cell>>, f: nat)
    requires CleanedColumnsOf(kept, careers, cleaned)
    requires f < |FillPositions|
    ensures FillablePositions(FillPositions[..f]) && FillablePositions(FillPositions[..f + 1])
    ensures var p := FillPositions[f];
      Rellenos(kept, FillPositions[..f + 1]) == Rellenos(kept, FillPositions[..f]) +
        if exists i :: 0 <= i < |cleaned[p]| && cleaned[p][i].None? then [BaseColumns[p]] else []
  {
    var p := FillPositions[f];
    forall i | 0 <= i < |kept| ensures cleaned[p][i] == Sanitize.CleanCell(SourceCell(kept[i], p)) {
      assert CellsWith(kept[i], careers[i])[p] == SourceCell(kept[i], p);
    }
    GapIsMissing(kept, cleaned[p], p);
    RellenosStep(kept, FillPositions[..f], p);
    assert FillPositions[..f + 1] == FillPositions[..f] + [p];
  }

  /** The loop of lines 107-113: fills company, salary and modality, recording each column that had a gap. */
  method FillColumns(kept: seq<RawRow>, careers: seq<string>, cleaned: seq<seq<Cell>>)
    returns (cols: seq<seq<Cell>>, rellenos: seq<string>)
    requires CleanedColumnsOf(kept, careers, cleaned)
    ensures rellenos == Rellenos(kept, FillPositions)
    ensures FilledColumnsOf(cleaned, cols)
  {
    cols := cleaned;
    rellenos := [];
    for f := 0 to |FillPositions|
      invariant FillablePositions(FillPositions[..f])
      invariant cols == FilledAfter(cleaned, f)
      invariant rellenos == Rellenos(kept, FillPositions[..f])
    {
      var p := FillPositions[f];
      FillStepColumn(cleaned, f);
      FillStep(kept, careers, cleaned, f);
      if exists i :: 0 <= i < |cols[p]| && cols[p][i].None? {
        rellenos := rellenos + [BaseColumns[p]];
      }
      cols := cols[p := MapSeq(FillCell, cols[p])];
    }
    assert FillPositions[..|FillPositions|] == FillPositions;
  }

  /** The six base columns of the kept rows: the detected career, the lower-cased title and four source cells. */
  method GatherColumns(kept: seq<RawRow>, careers: seq<string>) returns (raw: seq<seq<Cell>>)
    requires |careers| == |kept|
    ensures RawColumnsOf(kept, careers, raw)
  {
    raw := seq(BaseCount, c requires 0 <= c < BaseCount =>
      seq(|kept|, i requires 0 <= i < |kept| => CellsWith(kept[i], careers[i])[c]));
  }

  /** Row `i` of the base columns is the base part of its output row. */
  lemma RowCells(kept: seq<RawRow>, careers: seq<string>, cleaned: seq<seq<Cell>>, cols: seq<seq<Cell>>, i: nat)
    requires CleanedColumnsOf(kept, careers, cleaned)
    requires FilledColumnsOf(cleaned, cols)
    requires i < |kept|
    ensures seq(BaseCount, c requires 0 <= c < BaseCount => cols[c][i]) == RowWith(kept[i], careers[i]).cells
  {
    var cells := FillRow(MapSeq(Sanitize.CleanCell, CellsWith(kept[i], careers[i])), FillPositions);
    forall c | 0 <= c < BaseCount ensures cols[c][i] == cells[c] {
    }
  }

  /** Row `i` of the flag columns is the skill part of its output row. */
  lemma RowFlags(kept: seq<RawRow>, flags: seq<seq<bool>>, catalogue: seq<string>, i: nat)
    requires FlagColumnsOf(kept, flags, catalogue)
    requires i < |kept|
    ensures seq(|flags|, k requires 0 <= k < |flags| => flags[k][i]) == Skills.DetectIn(SkillText(kept[i]), catalogue)
  {
  }

  /** The rows of `df_final`: base columns in the renamed order, then the skill columns. */
  method AssembleRows(kept: seq<RawRow>, careers: seq<string>, cleaned: seq<seq<Cell>>, cols: seq<seq<Cell>>,
                      flags: seq<seq<bool>>)
    returns (rows: seq<JobRow>)
    requires CleanedColumnsOf(kept, careers, cleaned)
    requires FilledColumnsOf(cleaned, cols)
    requires FlagColumnsOf(kept, flags, Skills.Catalogue)
    ensures |rows| == |kept|
    ensures forall i :: 0 <= i < |kept| ==> rows[i] == RowWith(kept[i], careers[i])
    ensures cols[5] == MapSeq(SalaryCell, rows)
  {
    rows := seq(|kept|, i requires 0 <= i < |kept| =>
      JobRow(seq(BaseCount, c requires 0 <= c < BaseCount => cols[c][i]), seq(|flags|, k requires 0 <= k < |flags| => flags[k][i])));
    forall i | 0 <= i < |kept| ensures rows[i] == RowWith(kept[i], careers[i]) {
      RowCells(kept, careers, cleaned, cols, i);
      RowFlags(kept, flags, Skills.Catalogue, i);
      Skills.DetectSkillsIn(SkillText(kept[i]));
    }
  }

  /** Output rows built with the detected careers are the transformed rows. */
  lemma RowsAreTransformed(kept: seq<RawRow>, careers: seq<string>, rows: seq<JobRow>)
    requires careers == MapSeq(DetectedCareer, kept)
    requires |rows| == |kept|
    requires forall i :: 0 <= i < |kept| ==> rows[i] == RowWith(kept[i], careers[i])
    ensures rows == MapSeq(Transform, kept)
  {
  }

  lemma KeptBySelect(rows: seq<RawRow>, domain: seq<RawRow>, mask: seq<bool>, kept: seq<RawRow>, careers: seq<string>)
    requires domain == Where(rows, PassesDomainFilter)
    requires mask == MapSeq(Classified, domain)
    requires kept == Select(domain, mask)
    requires careers == Select(MapSeq(DetectedCareer, domain), mask)
    ensures kept == Kept(rows)
    ensures careers == MapSeq(DetectedCareer, kept)
  {
    SelectMapped(domain, (r: RawRow) => r, Classified);
    assert MapSeq((r: RawRow) => r, domain) == domain;
    assert MapSeq((r: RawRow) => r, Where(domain, Classified)) == Where(domain, Classified);
    SelectMapped(domain, DetectedCareer, Classified);
  }

  lemma FlagsBySelect(domain: seq<RawRow>, texts: seq<string>, mask: seq<bool>, flags: seq<seq<bool>>,
                      kept: seq<RawRow>, catalogue: seq<string>)
    requires texts == MapSeq(SkillText, domain)
    requires mask == MapSeq(Classified, domain)
    requires kept == Where(domain, Classified)
    requires |flags| == |catalogue|
    requires forall k :: 0 <= k < |flags| ==> flags[k] == Select(SkillFlags(texts, catalogue[k]), mask)
    ensures FlagColumnsOf(kept, flags, catalogue)
  {
    forall k | 0 <= k < |flags|
      ensures |flags[k]| == |kept|
      ensures forall i :: 0 <= i < |kept| ==> flags[k][i] == Skills.FindWord(SkillText(kept[i]), catalogue[k], 0).Some?
    {
      var skill := catalogue[k];
      var f := (r: RawRow) => Skills.FindWord(SkillText(r), skill, 0).Some?;
      assert SkillFlags(texts, skill) == MapSeq(f, domain);
      SelectMapped(domain, f, Classified);
    }
  }

  /** Both filters, and the skill columns of the rows they keep: lines 26-78. */
  method FilterAndFlag(rows: seq<RawRow>) returns (kept: seq<RawRow>, careers: seq<string>, names: seq<string>, flags: seq<seq<bool>>)
    ensures kept == Kept(rows)
    ensures careers == MapSeq(DetectedCareer, kept)
    ensures names == Skills.SkillColumns
    ensures FlagColumnsOf(kept, flags, Skills.Catalogue)
  {
    var domain := Where(rows, PassesDomainFilter);
    var texts := MapSeq(SkillText, domain);
    names, flags := AddSkillColumns(texts, Skills.HardSkills, Skills.SoftSkills);
    NamesAreSkillColumns(names);
    var mask := MapSeq(Classified, domain);
    kept := Select(domain, mask);
    careers := Select(MapSeq(DetectedCareer, domain), mask);
    flags := seq(|flags|, k requires 0 <= k < |flags| => Select(flags[k], mask));
    KeptBySelect(rows, domain, mask, kept, careers);
    FlagsBySelect(domain, texts, mask, flags, kept, Skills.Catalogue);
  }

  /** The base columns cleaned and filled, and the rows assembled: lines 81-120. */
  method BuildTable(kept: seq<RawRow>, careers: seq<string>, flags: seq<seq<bool>>)
    returns (rows: seq<JobRow>, rellenos: seq<string>, salaries: nat)
    requires careers == MapSeq(DetectedCareer, kept)
    requires FlagColumnsOf(kept, flags, Skills.Catalogue)
    ensures rows == MapSeq(Transform, kept)
    ensures rellenos == Rellenos(kept, FillPositions)
    ensures salaries == Count(MapSeq(SalaryCell, rows), IsPresent)
  {
    var raw := GatherColumns(kept, careers);
    var cleaned := CleanColumns(raw);
    CleanedOfRaw(kept, careers, raw, cleaned);
    var cols;
    cols, rellenos := FillColumns(kept, careers, cleaned);
    rows := AssembleRows(kept, careers, cleaned, cols, flags);
    RowsAreTransformed(kept, careers, rows);
    salaries := Count(cols[5], IsPresent);
  }

  /** The step on a table that has every column it reads. */
  method MineRows(rows: seq<RawRow>) returns (out: Output)
    ensures out == Mined(rows)
  {
    var kept, careers, names, flags := FilterAndFlag(rows);
    var table, rellenos, salaries := BuildTable(kept, careers, flags);
    var summary := Summary(|rows|, |rows| - |kept|, |kept|, salaries, rellenos, DroppedColumns, true, names);
    out := Output(BaseColumns + names, table, summary, names, Take(rows, 5), Take(table, 5));
  }

  /** The whole step, in the order the source performs it: a missing column stops it with a `KeyError`. */
  method Mine(t: RawTable) returns (result: Result<Output, MiningError>)
    ensures result == Process(t)
  {
    var missing := FirstMissing(t.header, RequiredColumns);
    if missing.Some? {
      return Failure(MissingColumn(missing.value));
    }
    var out := MineRows(t.rows);
    result := Success(out);
  }

  // ------------------------------------------------ what the step promises

  /** The step fails exactly when a column it reads is absent, naming such a column; otherwise it mines the rows. */
  lemma ProcessOutcome(t: RawTable)
    ensures Process(t).Failure? <==> exists i :: 0 <= i < |RequiredColumns| && RequiredColumns[i] !in t.header
    ensures Process(t).Failure? ==> Process(t).error.column in RequiredColumns && Process(t).error.column !in t.header
    ensures Process(t).Success? ==> Process(t).value == Mined(t.rows)
  {
  }

  /**
   * A row is kept exactly when its lower-cased title or description names an
   * engineering keyword and some career claims it; the kept rows keep their
   * input order.
   */
  lemma KeptMeaning(rows: seq<RawRow>, r: RawRow)
    ensures r in Kept(rows) <==> r in rows && PassesDomainFilter(r) && Classified(r)
    ensures IsSubsequence(Kept(rows), rows)
  {
    WhereTwice(rows, PassesDomainFilter, Classified, r);
  }

  /** The career cell of a kept row is the classifier's winner, one of the six career names. */
  lemma RowCareer(r: RawRow)
    requires Classified(r)
    ensures var k := Careers.Classify(CareerText(r));
      var s := Careers.Scores(CareerText(r));
      k.Some? && k.value < Careers.CareerCount
      && Transform(r).cells[0] == Some(Careers.CareerName(k.value))
      && s[k.value] > 0
      && (forall c :: 0 <= c < Careers.CareerCount ==> s[c] <= s[k.value])
      && (forall c :: 0 <= c < k.value ==> s[c] < s[k.value])
  {
    var text := CareerText(r);
    Careers.SentinelIsNoCareer(text);
    Careers.ClassifyWinner(text);
    Sanitize.CleanKeepsCareerNames(Careers.Classify(text).value);
    assert 0 !in FillPositions;
  }

  /** The title cell is the lower-cased title with the disallowed characters deleted: no upper-case letter is left. */
  lemma RowTitle(r: RawRow, career: string)
    ensures var t := RowWith(r, career).cells[1];
      t.Some? && IsSubsequence(t.value, LowTitle(r))
      && forall c :: c in t.value ==> !IsUpperLetter(c) && Sanitize.Allowed(c)
  {
    assert 1 !in FillPositions;
    Sanitize.CleanProperties(LowTitle(r));
    forall c | c in LowTitle(r) ensures !IsUpperLetter(c) {
      var i :| 0 <= i < |LowTitle(r)| && LowTitle(r)[i] == c;
    }
  }

  /**
   * Company, salary and modality are never missing after filling; workday is
   * not filled. The salary is the extracted amount text itself, never a
   * number: a run of digits, dots and commas, or the placeholder.
   */
  lemma RowFilled(r: RawRow, career: string)
    ensures var cells := RowWith(r, career).cells;
      |cells| == BaseCount
      && cells[2] == Some(if r.company.Some? then Sanitize.Clean(r.company.value) else Placeholder)
      && cells[3] == Sanitize.CleanCell(r.workday)
      && cells[4] == Some(if r.modality.Some? then Sanitize.Clean(r.modality.value) else Placeholder)
      && cells[5] == Some(Salary.StoredSalary(r.salary).GetOr(Placeholder))
      && (cells[5] == Some(Placeholder) || forall c :: c in cells[5].value ==> Salary.IsAmountChar(c))
  {
    assert 2 in FillPositions && 3 !in FillPositions && 4 in FillPositions && 5 in FillPositions;
    Sanitize.CleanKeepsSalary(r.salary);
    Salary.StoredSalaryMeaning(r.salary);
  }

  /** `texto_skills` has no line break left: each CR/LF run became one space. */
  lemma SkillTextFlat(r: RawRow)
    ensures forall c :: c in SkillText(r) ==> !IsLineBreak(c)
  {
    ReplaceRunsRemoves(LowDescription(r), IsLineBreak, ' ');
    ReplaceRunsRemoves(AsText(r.requirements), IsLineBreak, ' ');
  }

  /** Every output row carries one flag per catalogue entry, set exactly when the literal occurs as a whole word. */
  lemma RowSkills(r: RawRow, career: string)
    ensures var flags := RowWith(r, career).skills;
      |flags| == |Skills.Catalogue|
      && forall k :: 0 <= k < |Skills.Catalogue| ==> (flags[k] <==> Skills.ContainsWord(SkillText(r), Skills.Catalogue[k]))
  {
    Skills.SoftEntry(0);
    forall k | 0 <= k < |Skills.Catalogue|
      ensures Skills.DetectSkills(SkillText(r))[k] <==> Skills.ContainsWord(SkillText(r), Skills.Catalogue[k])
    {
      Skills.DetectSkillsMeaning(SkillText(r), k);
    }
  }

  /** A missing cell stays missing through cleaning and a present one stays present. */
  lemma RecordedRaw(kept: seq<RawRow>, p: nat)
    requires 2 <= p < BaseCount
    ensures Recorded(kept, p) == if exists i :: 0 <= i < |kept| && SourceCell(kept[i], p).None? then [BaseColumns[p]] else []
  {
    if exists i :: 0 <= i < |kept| && SourceCell(kept[i], p).None? {
      var i :| 0 <= i < |kept| && SourceCell(kept[i], p).None?;
      assert Sanitize.CleanCell(SourceCell(kept[i], p)).None?;
    }
  }

  /** Three filling steps, one after the other. */
  lemma RellenosThree(kept: seq<RawRow>, a: nat, b: nat, c: nat)
    requires 2 <= a < BaseCount && 2 <= b < BaseCount && 2 <= c < BaseCount
    ensures FillablePositions([a, b, c])
    ensures Rellenos(kept, [a, b, c]) == Recorded(kept, a) + Recorded(kept, b) + Recorded(kept, c)
  {
    RellenosStep(kept, [], a);
    assert [] + [a] == [a];
    RellenosStep(kept, [a], b);
    assert [a] + [b] == [a, b];
    RellenosStep(kept, [a, b], c);
    assert [a, b] + [c] == [a, b, c];
  }

  /** `rellenos` names, in the order company, salary, modality, exactly the columns some kept row lacked. */
  lemma RellenosMeaning(kept: seq<RawRow>)
    ensures Rellenos(kept, FillPositions) ==
      (if exists i :: 0 <= i < |kept| && kept[i].company.None? then ["company"] else [])
      + (if exists i :: 0 <= i < |kept| && Salary.StoredSalary(kept[i].salary).None? then ["salary"] else [])
      + (if exists i :: 0 <= i < |kept| && kept[i].modality.None? then ["modality"] else [])
  {
    RellenosThree(kept, 2, 5, 4);
    assert FillPositions == [2, 5, 4];
    RecordedCompany(kept);
    RecordedSalary(kept);
    RecordedModality(kept);
  }

  lemma RecordedCompany(kept: seq<RawRow>)
    ensures Recorded(kept, 2) == if exists i :: 0 <= i < |kept| && kept[i].company.None? then ["company"] else []
  {
    RecordedRaw(kept, 2);
    assert forall i :: 0 <= i < |kept| ==> SourceCell(kept[i], 2) == kept[i].company;
  }

  lemma RecordedSalary(kept: seq<RawRow>)
    ensures Recorded(kept, 5) ==
      if exists i :: 0 <= i < |kept| && Salary.StoredSalary(kept[i].salary).None? then ["salary"] else []
  {
    RecordedRaw(kept, 5);
    assert forall i :: 0 <= i < |kept| ==> SourceCell(kept[i], 5) == Salary.StoredSalary(kept[i].salary);
  }

  lemma RecordedModality(kept: seq<RawRow>)
    ensures Recorded(kept, 4) == if exists i :: 0 <= i < |kept| && kept[i].modality.None? then ["modality"] else []
  {
    RecordedRaw(kept, 4);
    assert forall i :: 0 <= i < |kept| ==> SourceCell(kept[i], 4) == kept[i].modality;
  }

  /** The counts of the summary agree: rows removed plus rows kept is the input, and every kept row has a salary. */
  lemma MinedSummary(rows: seq<RawRow>)
    ensures var out := Mined(rows);
      var s := out.summary;
      s.originales == |rows|
      && s.eliminados + s.finales == s.originales
      && s.finales == |out.rows|
      && s.transformacionesSalario == s.finales
  {
    var kept := Kept(rows);
    var out := MapSeq(Transform, kept);
    forall i | 0 <= i < |out| ensures IsPresent(MapSeq(SalaryCell, out)[i]) {
      assert out[i] == RowWith(kept[i], DetectedCareer(kept[i]));
      assert 5 in FillPositions;
    }
    CountAll(MapSeq(SalaryCell, out), IsPresent);
  }

  /** The six base names are none of the skill names: no base name starts with `hard_` or `soft_`. */
  lemma BaseNotSkill(i: nat, j: nat)
    requires i < BaseCount && j < |Skills.SkillColumns|
    ensures BaseColumns[i] != Skills.SkillColumns[j]
  {
    Skills.SkillColumnPrefixes();
    var name := Skills.SkillColumns[j];
    if j < Skills.HardSkillCount {
      assert name[0] == 'h';
    } else {
      assert name[0] == 's' && name[1] == 'o';
    }
  }

  /** Two final columns at different positions have different names. */
  lemma FinalColumnsApart(i: nat, j: nat)
    requires i < j < BaseCount + |Skills.SkillColumns|
    ensures (BaseColumns + Skills.SkillColumns)[i] != (BaseColumns + Skills.SkillColumns)[j]
  {
    var cols := BaseColumns + Skills.SkillColumns;
    if i >= BaseCount {
      Skills.SkillColumnsDistinct();
      assert cols[i] == Skills.SkillColumns[i - BaseCount] && cols[j] == Skills.SkillColumns[j - BaseCount];
    } else if j >= BaseCount {
      BaseNotSkill(i, j - BaseCount);
    }
  }

  /** The final column names: the six base columns, then every skill column, all distinct. */
  lemma FinalColumnsDistinct()
    ensures forall i, j :: 0 <= i < j < |BaseColumns + Skills.SkillColumns| ==>
      (BaseColumns + Skills.SkillColumns)[i] != (BaseColumns + Skills.SkillColumns)[j]
  {
    forall i, j | 0 <= i < j < |BaseColumns + Skills.SkillColumns|
      ensures (BaseColumns + Skills.SkillColumns)[i] != (BaseColumns + Skills.SkillColumns)[j]
    {
      FinalColumnsApart(i, j);
    }
  }

  /**
   * The final columns are the six base columns followed by every skill column,
   * all distinct, and the reported skill columns are exactly the ones after
   * the base part.
   */
  lemma MinedColumns(rows: seq<RawRow>)
    ensures var out := Mined(rows);
      |out.columns| == BaseCount + Skills.HardSkillCount + Skills.SoftSkillCount
      && out.columns[..BaseCount] == BaseColumns
      && out.detected == out.summary.habilidades == out.columns[BaseCount..]
      && (forall i, j :: 0 <= i < j < |out.columns| ==> out.columns[i] != out.columns[j])
      && (forall j :: BaseCount <= j < |out.columns| ==>
            StartsWith(out.columns[j], "hard_") || StartsWith(out.columns[j], "soft_"))
  {
    var out := Mined(rows);
    assert out.columns == BaseColumns + Skills.SkillColumns;
    assert out.detected == out.summary.habilidades == Skills.SkillColumns;
    FinalColumnsShape();
  }

  /** The shape of `BaseColumns + Skills.SkillColumns`, apart from any table. */
  lemma FinalColumnsShape()
    ensures var cols := BaseColumns + Skills.SkillColumns;
      |cols| == BaseCount + Skills.HardSkillCount + Skills.SoftSkillCount
      && cols[..BaseCount] == BaseColumns && cols[BaseCount..] == Skills.SkillColumns
      && (forall i, j :: 0 <= i < j < |cols| ==> cols[i] != cols[j])
      && (forall j :: BaseCount <= j < |cols| ==>
            StartsWith(cols[j], "hard_") || StartsWith(cols[j], "soft_"))
  {
    FinalColumnsDistinct();
    Skills.SkillColumnPrefixes();
    var cols := BaseColumns + Skills.SkillColumns;
    assert cols[..BaseCount] == BaseColumns && cols[BaseCount..] == Skills.SkillColumns;
    assert forall j :: BaseCount <= j < |cols| ==> cols[j] == Skills.SkillColumns[j - BaseCount];
  }

  /** Both previews are the first (at most) five rows: of the input, and of the final table. */
  lemma MinedPreviews(rows: seq<RawRow>)
    ensures var out := Mined(rows);
      out.before == rows[..|out.before|] && |out.before| == (if |rows| < 5 then |rows| else 5)
      && out.after == out.rows[..|out.after|] && |out.after| == (if |out.rows| < 5 then |out.rows| else 5)
  {
  }
}
