/**
 * The pure parts of the two dashboard pages (frontend/main.js and
 * frontend/dashboard.js): the top-5 skill lists and their ranked table rows,
 * the salary chart's job labels, and the name of the exported PDF.
 */
module Charts {
  import opened Wrappers
  import opened Text
  import opened Seqs
  import opened Js
  import opened Tables

  // ------------------------------------------------ top five

  /** `lista.slice(0, 5)`: the server's first five entries, in its order. */
  function Top5(xs: seq<Record>): (r: seq<Record>)
    ensures |r| <= 5 && |r| <= |xs| && r == xs[..|r|]
    ensures |r| == 5 || r == xs
  {
    Take(xs, 5)
  }

  function Nombre(h: Record): Value { Get(h, "nombre") }

  function Frecuencia(h: Record): Value { Get(h, "frecuencia") }

  /** The chart's `labels` and `data`: names and frequencies of the top five, position by position. */
  function ChartSeries(xs: seq<Record>): (r: (seq<Value>, seq<Value>))
    ensures |r.0| == |r.1| == |Top5(xs)|
    ensures forall i :: 0 <= i < |r.0| ==> r.0[i] == Get(xs[i], "nombre") && r.1[i] == Get(xs[i], "frecuencia")
  {
    (MapSeq(Nombre, Top5(xs)), MapSeq(Frecuencia, Top5(xs)))
  }

  /** The entries paired with their ranks, counting from `start`. */
  function {:tailrecursion} RankFrom(es: seq<Record>, start: nat): (r: seq<(nat, Record)>)
    ensures |r| == |es|
    ensures forall i :: 0 <= i < |es| ==> r[i] == (start + i, es[i])
    decreases |es|
  {
    if es == [] then []
    else [(start, es[0])] + RankFrom(es[1..], start + 1)
  }

  /** `<tr><td>${i+1}</td><td>${h.nombre}</td><td>${h.frecuencia}</td></tr>` */
  function RankRowHtml(e: (nat, Record)): string {
    RankOpen + NatToString(e.0) + RankRest(e.1)
  }

  const RankOpen: string := "<tr><td>"

  /** The row after its rank: `</td><td>${h.nombre}</td><td>${h.frecuencia}</td></tr>`. */
  function RankRest(h: Record): string {
    "</td><td>" + ToStr(Nombre(h)) + "</td><td>" + ToStr(Frecuencia(h)) + "</td></tr>"
  }

  /** The rows of a top-5 table, with their ranks; `join('')` puts their markup together. */
  function RankRows(xs: seq<Record>): seq<(nat, Record)> {
    RankFrom(Top5(xs), 1)
  }

  function RankTableHtml(xs: seq<Record>): string {
    Join(MapSeq(RankRowHtml, RankRows(xs)), "")
  }

  /** A row's first cell holds its rank in decimal. */
  lemma RankCell(e: (nat, Record))
    ensures var row := RankRowHtml(e);
      var n := NatToString(e.0);
      |row| >= 8 + |n| && row[..8] == "<tr><td>" && row[8..8 + |n|] == n && DigitsValue(n) == e.0
  {
    NatToStringRoundTrip(e.0);
    var row, n := RankRowHtml(e), NatToString(e.0);
    assert row == RankOpen + n + RankRest(e.1);
    assert row[..8] == RankOpen && row[8..8 + |n|] == n;
  }

  /**
   * The table shows at most five rows, ranked 1, 2, ... in the server's
   * order; the rank cell of each row reads back as its rank.
   */
  lemma RankRowsMeaning(xs: seq<Record>)
    ensures |RankRows(xs)| <= 5 && |RankRows(xs)| == |Top5(xs)|
    ensures forall i :: 0 <= i < |RankRows(xs)| ==> RankRows(xs)[i] == (i + 1, xs[i])
    ensures forall i :: 0 <= i < |RankRows(xs)| ==>
      var row := RankRowHtml(RankRows(xs)[i]);
      var n := NatToString(i + 1);
      |row| >= 8 + |n| && row[..8] == "<tr><td>" && row[8..8 + |n|] == n && DigitsValue(n) == i + 1
  {
    forall i | 0 <= i < |RankRows(xs)|
      ensures var row := RankRowHtml(RankRows(xs)[i]);
        var n := NatToString(i + 1);
        |row| >= 8 + |n| && row[..8] == "<tr><td>" && row[8..8 + |n|] == n && DigitsValue(n) == i + 1
    {
      RankCell(RankRows(xs)[i]);
    }
  }

  // ------------------------------------------------ salary chart

  /** `data.salarios || []`: the list the server sent, or none when the answer has no list. */
  function Salarios(d: Data): seq<Record> {
    if d.Items? then d.rows else []
  }

  /**
   * `s.puesto.length > 40 ? s.puesto.slice(0, 37) + '...' : s.puesto`.
   * Reading `length` of `null` or `undefined` throws (`None`); other
   * non-strings have no length, so the comparison fails and the value is
   * the label as it is.
   */
  function JobLabel(v: Value): (r: Option<Value>)
    ensures r.None? <==> v == Null || v == Undefined
    ensures r.Some? && !v.Str? ==> r.value == v
    ensures v.Str? ==> r.Some? && r.value.Str? && |r.value.s| <= 40 && (r.value == v <==> |v.s| <= 40)
    ensures v.Str? && |v.s| > 40 ==> r.value.s == v.s[..37] + "..."
  {
    match v
    case Null => None
    case Undefined => None
    case Str(s) => Some(Str(Truncate(s, 40)))
    case _ => Some(v)
  }

  function Puesto(s: Record): Value { Get(s, "puesto") }

  function Salario(s: Record): Value { Get(s, "salario") }

  /** The labels of all salaries, or `None` when one `puesto` is missing and the handler throws. */
  function JobLabels(ss: seq<Record>): (r: Option<seq<Value>>)
    ensures r.None? <==> exists i :: 0 <= i < |ss| && JobLabel(Puesto(ss[i])).None?
    ensures r.Some? ==> |r.value| == |ss| && forall i :: 0 <= i < |ss| ==> Some(r.value[i]) == JobLabel(Puesto(ss[i]))
    decreases |ss|
  {
    if ss == [] then Some([])
    else
      var head := JobLabel(Puesto(ss[0]));
      var rest := JobLabels(ss[1..]);
      assert forall i :: 1 <= i < |ss| ==> ss[1..][i - 1] == ss[i];
      if head.None? then None
      else if rest.None? then
        var i :| 0 <= i < |ss[1..]| && JobLabel(Puesto(ss[1..][i])).None?;
        assert ss[1..][i] == ss[i + 1];
        None
      else Some([head.value] + rest.value)
  }

  /**
   * The salary chart: its labels and its values, in the server's order, or
   * `None` when the handler throws. A truthy `salarios` that is not an array
   * survives `|| []` and has no `map`, so the handler throws on it.
   */
  function SalaryChart(d: Data): (r: Option<(seq<Value>, seq<Value>)>)
    ensures r.Some? ==> |r.value.0| == |r.value.1| == |Salarios(d)|
  {
    var labels := JobLabels(Salarios(d));
    if d.NonArray? || labels.None? then None else Some((labels.value, MapSeq(Salario, Salarios(d))))
  }

  /**
   * A falsy `salarios` gives no bars, and a truthy non-array makes the
   * handler throw. Otherwise every text label is at most
   * 40 characters long, shorter job titles are shown as they are, and bar
   * `i` carries the salary of entry `i`.
   */
  lemma SalaryChartMeaning(d: Data)
    ensures d.Absent? ==> SalaryChart(d) == Some(([], []))
    ensures SalaryChart(d).Some? ==>
      var ss := Salarios(d);
      var (labels, values) := SalaryChart(d).value;
      forall i :: 0 <= i < |ss| ==>
        values[i] == Get(ss[i], "salario") &&
        (Puesto(ss[i]).Str? ==> labels[i].Str? && |labels[i].s| <= 40 && (|Puesto(ss[i]).s| <= 40 ==> labels[i] == Puesto(ss[i])))
    ensures SalaryChart(d).None? <==> d.NonArray? || exists s :: s in Salarios(d) && (Puesto(s) == Null || Puesto(s) == Undefined)
  {
    var ss := Salarios(d);
    if SalaryChart(d).None? && !d.NonArray? {
      var i :| 0 <= i < |ss| && JobLabel(Puesto(ss[i])).None?;
      assert ss[i] in ss;
    }
    if exists s :: s in ss && (Puesto(s) == Null || Puesto(s) == Undefined) {
      var s :| s in ss && (Puesto(s) == Null || Puesto(s) == Undefined);
      var i :| 0 <= i < |ss| && ss[i] == s;
      assert JobLabel(Puesto(ss[i])).None?;
    }
  }

  // ------------------------------------------------ export file name

  /** The combining diacritical marks U+0300-U+036F, which the export removes. */
  predicate IsCombiningMark(c: char) { '̀' <= c <= 'ͯ' }

  predicate IsNotMark(c: char) { !IsCombiningMark(c) }

  /** The lower-case Latin-1 letters with a canonical decomposition into a base letter and one mark. */
  predicate HasDecomposition(c: char) {
    ('à' <= c <= 'å') || c == 'ç' || ('è' <= c <= 'ï') || c == 'ñ' || ('ò' <= c <= 'ö') || ('ù' <= c <= 'ý') || c == 'ÿ'
  }

  /** The base letter of a decomposable letter. */
  function BaseLetter(c: char): (b: char)
    requires HasDecomposition(c)
    ensures 'a' <= b <= 'z'
  {
    if c <= 'å' then 'a' else if c == 'ç' then 'c' else if c <= 'ë' then 'e' else if c <= 'ï' then 'i'
    else if c == 'ñ' then 'n' else if c <= 'ö' then 'o' else if c <= 'ü' then 'u' else 'y'
  }

  /** The mark of a decomposable letter: grave, acute, circumflex, tilde, diaeresis, ring or cedilla. */
  function MarkOf(c: char): (m: char)
    requires HasDecomposition(c)
    ensures IsCombiningMark(m)
  {
    if c == 'ç' then '̧'
    else if c == 'å' then '̊'
    else if c == 'ÿ' || c == 'ä' || c == 'ë' || c == 'ï' || c == 'ö' || c == 'ü' then '̈'
    else if c == 'ã' || c == 'ñ' || c == 'õ' then '̃'
    else if c == 'â' || c == 'ê' || c == 'î' || c == 'ô' || c == 'û' then '̂'
    else if c == 'á' || c == 'é' || c == 'í' || c == 'ó' || c == 'ú' || c == 'ý' then '́'
    else '̀'
  }

  /** `normalize("NFD")` of one character, for the characters a lower-cased Latin-1 text holds. */
  function Decompose(c: char): string {
    if HasDecomposition(c) then [BaseLetter(c), MarkOf(c)] else [c]
  }

  function Decomposition(): char -> string {
    c => Decompose(c)
  }

  /** A character with its accent taken off. */
  function Unaccented(c: char): char {
    if HasDecomposition(c) then BaseLetter(c) else c
  }

  /** `.normalize("NFD").replace(/[̀-ͯ]/g, "")` */
  function StripAccents(s: string): string {
    Filter(ConcatMap(s, Decomposition()), IsNotMark)
  }

  /** The file-name form of a career: lower-cased, accents stripped, every whitespace run one `_`. */
  function Slug(s: string): string {
    ReplaceRuns(StripAccents(LowerStr(s)), IsJsSpace, '_')
  }

  /** `habilidades_${carreraFormateada}_${año}.pdf`, with `ingenieria` for an empty selection; the year is the clock's. */
  function ExportFileName(carrera: string, year: nat): string {
    "habilidades_" + Slug(SelectedCareer(carrera)) + "_" + NatToString(year) + ".pdf"
  }

  /** On a text without marks, stripping the accents replaces each accented letter by its base letter and keeps the rest. */
  lemma {:induction false} StripAccentsByCharacter(s: string)
    requires forall c :: c in s ==> !IsCombiningMark(c)
    ensures StripAccents(s) == MapSeq(Unaccented, s)
  {
    if s != [] {
      assert forall c :: c in s[1..] ==> c in s;
      StripAccentsByCharacter(s[1..]);
      assert s[0] in s;
      FilterAppend(Decompose(s[0]), ConcatMap(s[1..], Decomposition()), IsNotMark);
      assert Filter(Decompose(s[0]), IsNotMark) == [Unaccented(s[0])] by {
        if HasDecomposition(s[0]) {
          assert Decompose(s[0])[1..] == [MarkOf(s[0])];
        }
      }
      assert MapSeq(Unaccented, s) == [Unaccented(s[0])] + MapSeq(Unaccented, s[1..]);
    }
  }

  /** The accent-stripped text holds no combining mark and nothing upper-case. */
  lemma StripAccentsChars(s: string)
    ensures forall c :: c in StripAccents(LowerStr(s)) ==> !IsCombiningMark(c) && !IsUpperLetter(c)
  {
    var t := LowerStr(s);
    forall c | c in StripAccents(t) ensures !IsCombiningMark(c) && !IsUpperLetter(c) {
      ConcatMapChars(t, Decomposition(), c);
      var i :| 0 <= i < |t| && c in Decomposition()(t[i]);
    }
  }

  /**
   * The slug holds no whitespace, no combining mark and no upper-case
   * letter, never two `_` written for one run, and is never longer than the
   * lower-cased text with its accents decomposed.
   */
  lemma SlugMeaning(s: string)
    ensures forall c :: c in Slug(s) ==> !IsJsSpace(c) && !IsCombiningMark(c) && !IsUpperLetter(c)
    ensures |Slug(s)| <= |StripAccents(LowerStr(s))|
  {
    var t := StripAccents(LowerStr(s));
    ReplaceRunsRemoves(t, IsJsSpace, '_');
    ReplaceRunsChars(t, IsJsSpace, '_');
    StripAccentsChars(s);
  }

  /** Lower-casing and stripping accents never write a `_` that the name did not have. */
  lemma StripAccentsUnderscore(s: string)
    requires '_' !in s
    ensures '_' !in StripAccents(LowerStr(s))
  {
    var t := LowerStr(s);
    forall c | c in StripAccents(t) ensures c != '_' {
      ConcatMapChars(t, Decomposition(), c);
      var i :| 0 <= i < |t| && c in Decomposition()(t[i]);
      assert s[i] in s;
    }
  }

  /**
   * For a name without `_`, every `_` of the slug stands for one whole
   * whitespace run: no two are adjacent, and once they are dropped what is
   * left is the lower-cased, accent-stripped name without its whitespace, in
   * its order.
   */
  lemma SlugSeparators(s: string)
    requires '_' !in s
    ensures forall i :: 0 <= i < |Slug(s)| - 1 ==> !(Slug(s)[i] == '_' && Slug(s)[i + 1] == '_')
    ensures Filter(Slug(s), Other('_')) == Filter(StripAccents(LowerStr(s)), Not(IsJsSpace))
  {
    var t := StripAccents(LowerStr(s));
    StripAccentsUnderscore(s);
    ReplaceRunsSeparated(t, IsJsSpace, '_');
    ReplaceRunsKeeps(t, IsJsSpace, '_');
  }

  /** A whitespace run `w` between `x` and `y` becomes exactly one `_`, and the two sides are slugged apart. */
  lemma SlugRun(s: string, x: string, w: string, y: string)
    requires StripAccents(LowerStr(s)) == x + w + y
    requires w != [] && forall c :: c in w ==> IsJsSpace(c)
    requires x == [] || !IsJsSpace(x[|x| - 1])
    requires y == [] || !IsJsSpace(y[0])
    ensures Slug(s) == ReplaceRuns(x, IsJsSpace, '_') + "_" + ReplaceRuns(y, IsJsSpace, '_')
  {
    ReplaceRunsAt(x, w, y, IsJsSpace, '_');
  }

  /** A text of lower-case ASCII letters is its own slug. */
  lemma SlugPlain(s: string)
    requires forall c :: c in s ==> 'a' <= c <= 'z'
    ensures Slug(s) == s
  {
    forall i | 0 <= i < |s| ensures LowerStr(s)[i] == s[i] {
      assert s[i] in s;
    }
    assert LowerStr(s) == s;
    StripAccentsByCharacter(s);
    forall i | 0 <= i < |s| ensures MapSeq(Unaccented, s)[i] == s[i] {
      assert s[i] in s;
    }
    assert StripAccents(s) == s;
    ReplaceRunsAbsent(s, IsJsSpace, '_');
  }

  /** The pieces of a file name `habilidades_<slug>_<digits>.pdf` sit where the template puts them. */
  lemma FileNameShape(slug: string, digits: string)
    ensures var f := "habilidades_" + slug + "_" + digits + ".pdf";
      |f| == 17 + |slug| + |digits| &&
      f[..12] == "habilidades_" && f[12..12 + |slug|] == slug && f[12 + |slug|] == '_' &&
      f[13 + |slug|..|f| - 4] == digits && f[|f| - 4..] == ".pdf"
  {
  }

  /** The career the export is named after: the selection, or `ingenieria` when nothing is selected. */
  function SelectedCareer(carrera: string): string {
    if carrera == "" then "ingenieria" else carrera
  }

  /**
   * The export is named `habilidades_<slug>_<year>.pdf`, the year read back
   * from its digits, and the slug holds no whitespace.
   */
  lemma ExportFileNameMeaning(carrera: string, year: nat)
    ensures var f := ExportFileName(carrera, year);
      var slug := Slug(SelectedCareer(carrera));
      |f| >= 17 + |slug| &&
      f[..12] == "habilidades_" && f[12..12 + |slug|] == slug && f[12 + |slug|] == '_' &&
      f[|f| - 4..] == ".pdf" && IsDigitString(f[13 + |slug|..|f| - 4]) && DigitsValue(f[13 + |slug|..|f| - 4]) == year &&
      forall c :: c in slug ==> !IsJsSpace(c)
  {
    var slug := Slug(SelectedCareer(carrera));
    SlugMeaning(SelectedCareer(carrera));
    FileNameShape(slug, NatToString(year));
    NatToStringRoundTrip(year);
  }

  /** `ingenieria` is its own slug. */
  lemma IngenieriaSlug()
    ensures Slug("ingenieria") == "ingenieria"
  {
    var s := "ingenieria";
    forall c | c in s ensures 'a' <= c <= 'z' {
      var i :| 0 <= i < |s| && s[i] == c;
    }
    SlugPlain(s);
  }

  /** With nothing selected the export is `habilidades_ingenieria_<year>.pdf`. */
  lemma FallbackFileName(year: nat)
    ensures ExportFileName("", year) == "habilidades_" + "ingenieria" + "_" + NatToString(year) + ".pdf"
  {
    assert SelectedCareer("") == "ingenieria";
    IngenieriaSlug();
  }
}
