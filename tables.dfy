/**
 * The two preview tables of the upload page (frontend/common.js:16-114,
 * repeated in frontend/main.js:193-291): the raw table of the uploaded rows
 * and the processed table of the mined rows, first as cells and then as markup.
 */
module Tables {
  import opened Wrappers
  import opened Text
  import opened Seqs
  import opened Js
  import opened Html

  // ------------------------------------------------ truncation

  /** `s.length > max ? s.substring(0, max - 3) + '...' : s` */
  function Truncate(s: string, max: nat): (r: string)
    requires max >= 3
    ensures |r| <= max
    ensures r == s <==> |s| <= max
    ensures |s| > max ==> |r| == max && r[..max - 3] == s[..max - 3] && r[max - 3..] == "..."
  {
    if |s| > max then s[..max - 3] + "..." else s
  }

  /** What `truncarTexto` returns: the text shown in the cell and the full text kept for its tooltip. */
  datatype Truncated = Truncated(display: string, full: string)

  /** `truncarTexto(text)` with its default `maxLength` of 30. */
  function TruncarTexto(v: Value): (t: Truncated)
    ensures t.full == Shown(v)
    ensures |t.display| <= 30 && (t.display == t.full <==> |t.full| <= 30)
    ensures |t.full| > 30 ==> t.display == t.full[..27] + "..."
  {
    Truncated(Truncate(Shown(v), 30), Shown(v))
  }

  // ------------------------------------------------ column headers

  /** `columnasBase`. */
  const BaseColumns: seq<string> := ["career", "title", "company", "workday", "modality", "salary"]

  /** `col.startsWith("hard_") || col.startsWith("soft_")` */
  predicate IsSkillColumn(col: string) {
    StartsWith(col, "hard_") || StartsWith(col, "soft_")
  }

  /** `col.replace(/^(hard|soft)_/, '')`: one leading kind prefix is removed, and nothing else. */
  function StripKind(col: string): (r: string)
    ensures StartsWith(col, "hard_") ==> "hard_" + r == col
    ensures StartsWith(col, "soft_") ==> "soft_" + r == col
    ensures !IsSkillColumn(col) ==> r == col
  {
    if IsSkillColumn(col) then col[5..] else col
  }

  /** `String.prototype.toUpperCase` on a character JavaScript's `\w` matches. */
  function UpperAscii(c: char): (r: char)
    ensures IsAsciiWordChar(c) ==> IsAsciiWordChar(r) && !('a' <= r <= 'z')
  {
    if 'a' <= c <= 'z' then (c as int - 32) as char else c
  }

  /** `\b\w` matches at `i`: a word character with no word character before it. */
  predicate WordStart(s: string, i: nat)
    requires i < |s|
  {
    IsAsciiWordChar(s[i]) && (i == 0 || !IsAsciiWordChar(s[i - 1]))
  }

  /**
   * `replace(/\b\w/g, l => l.toUpperCase())`, scanning left to right;
   * `afterWord` says whether the character before `s` is a word character.
   */
  function CapitalizeFrom(s: string, afterWord: bool): (r: string)
    ensures |r| == |s|
  {
    if s == [] then []
    else [if IsAsciiWordChar(s[0]) && !afterWord then UpperAscii(s[0]) else s[0]] + CapitalizeFrom(s[1..], IsAsciiWordChar(s[0]))
  }

  /** The scan upper-cases a character exactly when it is a word character and the one before it is not. */
  lemma {:induction false} CapitalizeFromAt(s: string, afterWord: bool, i: nat)
    requires i < |s|
    ensures CapitalizeFrom(s, afterWord)[i] ==
      if IsAsciiWordChar(s[i]) && !(if i == 0 then afterWord else IsAsciiWordChar(s[i - 1])) then UpperAscii(s[i]) else s[i]
  {
    if i > 0 {
      CapitalizeFromAt(s[1..], IsAsciiWordChar(s[0]), i - 1);
      assert s[1..][i - 1] == s[i];
      if i > 1 {
        assert s[1..][i - 2] == s[i - 1];
      }
    }
  }

  /** Every match of `\b\w` is upper-cased; every other character is kept. */
  function Capitalize(s: string): (r: string)
    ensures |r| == |s|
    ensures forall i :: 0 <= i < |s| ==> r[i] == if WordStart(s, i) then UpperAscii(s[i]) else s[i]
  {
    assert forall i :: 0 <= i < |s| ==> CapitalizeFrom(s, false)[i] == if WordStart(s, i) then UpperAscii(s[i]) else s[i] by {
      forall i | 0 <= i < |s| ensures CapitalizeFrom(s, false)[i] == if WordStart(s, i) then UpperAscii(s[i]) else s[i] {
        CapitalizeFromAt(s, false, i);
      }
    }
    CapitalizeFrom(s, false)
  }

  /** `formatearNombreColumna(col)`. */
  function FormatColumn(col: string): string {
    if col in BaseColumns then col else Capitalize(ReplaceAll(StripKind(col), "_", " "))
  }

  /** The column name with its `_` turned into spaces. */
  function Spaced(t: string): (u: string)
    ensures |u| == |t| && forall i :: 0 <= i < |t| ==> u[i] == if t[i] == '_' then ' ' else t[i]
  {
    ReplaceAllChar(t, '_', ' ');
    ReplaceAll(t, "_", " ")
  }

  /**
   * A base column keeps its name. Any other column loses a leading `hard_`
   * or `soft_`; each of its `_` becomes a space and every letter that starts
   * a word is upper-cased, the rest unchanged, so no `_` is left.
   */
  lemma FormatColumnMeaning(col: string)
    ensures col in BaseColumns ==> FormatColumn(col) == col
    ensures col !in BaseColumns ==>
      var t := StripKind(col);
      var r := FormatColumn(col);
      |r| == |t| && '_' !in r &&
      forall i :: 0 <= i < |t| ==>
        (t[i] == '_' ==> r[i] == ' ') &&
        (t[i] != '_' && IsAsciiWordChar(t[i]) && (i == 0 || !IsAsciiWordChar(Spaced(t)[i - 1])) ==> r[i] == UpperAscii(t[i])) &&
        (t[i] != '_' && !(IsAsciiWordChar(t[i]) && (i == 0 || !IsAsciiWordChar(Spaced(t)[i - 1]))) ==> r[i] == t[i])
  {
    if col !in BaseColumns {
      var t := StripKind(col);
      var u := Spaced(t);
      var r := FormatColumn(col);
      assert r == Capitalize(u);
      forall i | 0 <= i < |r| ensures r[i] != '_' {
        assert u[i] != '_';
      }
    }
  }

  // ------------------------------------------------ active skill columns

  /** `data.some(row => isActive(row[col]))` */
  predicate AnyActive(rows: seq<Record>, col: string) {
    exists i :: 0 <= i < |rows| && Active(Get(rows[i], col))
  }

  /** `columnasHabilidadesActivas`: the skill keys of the first row that some row has active, in that row's key order. */
  function ActiveColumns(rows: seq<Record>): seq<string>
    requires rows != []
  {
    Where(Keys(rows[0]), col => IsSkillColumn(col) && AnyActive(rows, col))
  }

  /** The active columns are exactly the skill keys of the first row that some row has active, in the first row's order. */
  lemma ActiveColumnsMeaning(rows: seq<Record>, col: string)
    requires rows != []
    ensures col in ActiveColumns(rows) <==>
      col in Keys(rows[0]) && IsSkillColumn(col) && exists i :: 0 <= i < |rows| && Active(Get(rows[i], col))
    ensures IsSubsequence(ActiveColumns(rows), Keys(rows[0]))
  {
    WhereMembership(Keys(rows[0]), col => IsSkillColumn(col) && AnyActive(rows, col), col);
    WhereIsSubsequence(Keys(rows[0]), col => IsSkillColumn(col) && AnyActive(rows, col));
  }

  // ------------------------------------------------ cells and tables

  /** A `<td>`: its tooltip, its text, and whether it is centred (`class="centrado"`). */
  datatype Cell = Cell(title: Option<string>, text: string, centered: bool)

  /** A paragraph with a message, or a table: its class, its header names and its body rows. */
  datatype Table = Notice(message: string) | Grid(style: string, headers: seq<string>, body: seq<seq<Cell>>)

  const NoRawData := "No hay datos crudos disponibles"
  const NoData := "No hay datos disponibles"

  /** `!data || !Array.isArray(data) || data.length === 0` */
  predicate Empty(d: Data) {
    !d.Items? || d.rows == []
  }

  /** A raw cell: the value as text, in full as the tooltip and cut to 30 characters as the content. */
  function RawCell(v: Value): (c: Cell)
    ensures c.title == Some(Shown(v)) && !c.centered
    ensures |c.text| <= 30 && (c.text == Shown(v) <==> |Shown(v)| <= 30)
  {
    Cell(Some(Shown(v)), Truncate(Shown(v), 30), false)
  }

  /** `generarTablaHTMLCruda(data)` as cells: one row per record, one cell per key of the first record. */
  function RawTable(d: Data): Table {
    if Empty(d) then Notice(NoRawData)
    else
      var cols := Keys(d.rows[0]);
      Grid("tabla-estilo", cols, MapSeq((r: Record) => MapSeq((col: string) => RawCell(Get(r, col)), cols), d.rows))
  }

  /** A base column cell: the truncated text and the full text, both escaped. */
  function BaseCell(v: Value): Cell {
    var t := TruncarTexto(v);
    Cell(Some(Escape(t.full)), Escape(t.display), false)
  }

  /** A skill cell: `1` when the value is an active flag, `0` otherwise. */
  function FlagCell(v: Value): Cell {
    Cell(None, if Active(v) then "1" else "0", true)
  }

  /** One body row of the processed table: the six base cells, then one cell per active column. */
  function ProcessedRow(r: Record, active: seq<string>): seq<Cell> {
    RowCells(r, BaseColumns, active)
  }

  /** The base cells of `cols`, then the flag cells of `active`. */
  function RowCells(r: Record, cols: seq<string>, active: seq<string>): seq<Cell> {
    MapSeq(BaseCellOf(r), cols) + MapSeq(FlagCellOf(r), active)
  }

  function BaseCellOf(r: Record): string -> Cell {
    col => BaseCell(Get(r, col))
  }

  function FlagCellOf(r: Record): string -> Cell {
    col => FlagCell(Get(r, col))
  }

  /** `generarTablaHTML(data)` as cells. */
  function ProcessedTable(d: Data): Table {
    if Empty(d) then Notice(NoData)
    else
      var active := ActiveColumns(d.rows);
      Grid("tabla-estilo tabla-procesada", MapSeq(FormatColumn, BaseColumns + active),
           MapSeq((r: Record) => ProcessedRow(r, active), d.rows))
  }

  /**
   * No rows give the fixed notice; otherwise the headers are the keys of the
   * first record and there is one row per record with one cell per header,
   * showing that record's value under that key.
   */
  lemma RawTableMeaning(d: Data)
    ensures RawTable(d).Notice? <==> Empty(d)
    ensures RawTable(d).Notice? ==> RawTable(d).message == NoRawData
    ensures RawTable(d).Grid? ==>
      var t := RawTable(d);
      t.headers == Keys(d.rows[0]) && |t.body| == |d.rows| &&
      forall i, j :: 0 <= i < |d.rows| && 0 <= j < |t.headers| ==>
        |t.body[i]| == |t.headers| && t.body[i][j] == RawCell(Get(d.rows[i], t.headers[j]))
  {
  }

  lemma RowCellsAt(r: Record, cols: seq<string>, active: seq<string>)
    ensures var row := RowCells(r, cols, active);
      |row| == |cols| + |active| &&
      (forall p :: 0 <= p < |cols| ==> row[p] == BaseCell(Get(r, cols[p]))) &&
      (forall j :: 0 <= j < |active| ==> row[|cols| + j] == FlagCell(Get(r, active[j])))
  {
    var row := RowCells(r, cols, active);
    var base := MapSeq(BaseCellOf(r), cols);
    var flags := MapSeq(FlagCellOf(r), active);
    forall p | 0 <= p < |cols| ensures row[p] == BaseCell(Get(r, cols[p])) {
      assert row[p] == base[p];
    }
    forall j | 0 <= j < |active| ensures row[|cols| + j] == FlagCell(Get(r, active[j])) {
      assert row[|cols| + j] == flags[j];
    }
  }

  /**
   * A processed row: one base cell per base column (six of them), then one
   * centred `1`/`0` cell per active column, `1` exactly for an active flag.
   */
  lemma ProcessedRowMeaning(r: Record, active: seq<string>)
    ensures |BaseColumns| == 6
    ensures var row := ProcessedRow(r, active);
      var n := |BaseColumns|;
      |row| == n + |active| &&
      (forall p :: 0 <= p < n ==> row[p] == BaseCell(Get(r, BaseColumns[p]))) &&
      (forall j :: 0 <= j < |active| ==> row[n + j].centered && (row[n + j].text == "1" <==> Active(Get(r, active[j]))))
  {
    RowCellsAt(r, BaseColumns, active);
    forall j | 0 <= j < |active| ensures FlagCell(Get(r, active[j])).centered && (FlagCell(Get(r, active[j])).text == "1" <==> Active(Get(r, active[j]))) {
      FlagCellMeaning(Get(r, active[j]));
    }
  }

  lemma FlagCellMeaning(v: Value)
    ensures FlagCell(v).centered && FlagCell(v).title.None?
    ensures FlagCell(v).text == "1" <==> Active(v)
    ensures FlagCell(v).text == "1" || FlagCell(v).text == "0"
  {
  }

  /** The headers are the six base columns, unchanged, then each active column formatted. */
  lemma ProcessedHeaders(active: seq<string>)
    ensures var hs := MapSeq(FormatColumn, BaseColumns + active);
      |hs| == 6 + |active| && hs[..6] == BaseColumns &&
      forall j :: 0 <= j < |active| ==> hs[6 + j] == FormatColumn(active[j])
  {
    var hs := MapSeq(FormatColumn, BaseColumns + active);
    forall p | 0 <= p < 6 ensures hs[p] == BaseColumns[p] {
      FormatColumnMeaning(BaseColumns[p]);
    }
  }

  /**
   * No rows give the fixed notice. Otherwise the headers are the six base
   * columns, unchanged, followed by the formatted active columns; each record
   * gives one row of six base cells and one `1`/`0` cell per active column,
   * `1` exactly when the record's value under that column is an active flag.
   */
  lemma ProcessedTableMeaning(d: Data)
    ensures ProcessedTable(d).Notice? <==> Empty(d)
    ensures ProcessedTable(d).Notice? ==> ProcessedTable(d).message == NoData
    ensures ProcessedTable(d).Grid? ==>
      var t := ProcessedTable(d);
      var active := ActiveColumns(d.rows);
      t.headers == MapSeq(FormatColumn, BaseColumns + active) && |t.body| == |d.rows| &&
      forall i :: 0 <= i < |d.rows| ==> t.body[i] == ProcessedRow(d.rows[i], active)
  {
  }

  /** A base cell shows the value cut to 30 characters; its tooltip and its content hold no markup character. */
  lemma BaseCellMeaning(v: Value)
    ensures var c := BaseCell(v);
      c.title == Some(Escape(Shown(v))) && c.text == Escape(TruncarTexto(v).display) && !c.centered &&
      (forall ch :: ch in c.title.value ==> !IsMarkup(ch)) && (forall ch :: ch in c.text ==> !IsMarkup(ch))
  {
    EscapeSafe(Shown(v));
    EscapeSafe(TruncarTexto(v).display);
  }

  // ------------------------------------------------ markup

  function HeaderHtml(h: string): string {
    "<th>" + h + "</th>"
  }

  function CellHtml(c: Cell): string {
    if c.centered then "<td class=\"centrado\">" + c.text + "</td>"
    else if c.title.Some? then "<td title=\"" + c.title.value + "\">" + c.text + "</td>"
    else "<td>" + c.text + "</td>"
  }

  function RowHtml(row: seq<Cell>): string {
    "<tr>" + Join(MapSeq(CellHtml, row), "") + "</tr>"
  }

  /** The markup of a table, as the template literals and `html +=` steps put it together. */
  function TableHtml(t: Table): string {
    match t
    case Notice(m) => "<p class=\"error\">" + m + "</p>"
    case Grid(cls, hs, body) =>
      "<table class=\"" + cls + "\"><thead><tr>" + Join(MapSeq(HeaderHtml, hs), "") + "</tr></thead><tbody>"
      + Join(MapSeq(RowHtml, body), "") + "</tbody></table>"
  }

  /** `generarTablaHTMLCruda(data)` */
  function GenerarTablaHTMLCruda(d: Data): string {
    TableHtml(RawTable(d))
  }

  /** `generarTablaHTML(data)` */
  function GenerarTablaHTML(d: Data): string {
    TableHtml(ProcessedTable(d))
  }
}
