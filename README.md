# Habilis job-posting analysis, modelled in Dafny

Habilis classifies job postings exported from Computrabajo. Its back end
reads a CSV export and keeps the engineering postings. For each one it
extracts the salary text, detects 56 catalogued skills and assigns one of
six engineering careers, then cleans the text and fills the gaps. It
returns the final table with an audit summary. Two statistics endpoints
read the stored table: one ranks skill frequencies for a career, the other
lists the best salary per job title. The front end shows the results as
HTML tables, charts, and a PDF export named after the career.

This project models those computations and proves what they promise:

- **Mining step** (`backend/mineria.py`):
  - `Salary`: the salary regex as a backtracking search, with a proved closed form.
  - `Skills`: the two skill catalogues, their column names and the `\b` word match.
  - `Careers`: the keyword-scoring classifier.
  - `Sanitize`: the character cleaner.
  - `Mining` (`pipeline.dfy`): the whole step. Done as the source does it, column by column, with loops, and proved equal to a row-by-row specification.
- **Read side** (`backend/main.py`):
  - `Statistics`: label formatting, the `ILIKE` career match, the skill rankings and the salary chain.
  - `Numerals` and `Limpieza`: Python's `float()` on plain numerals, and what `limpiar` makes of the salary texts.
  - `Sorting`: the ordering the statistics use.
- **Front end** (`frontend/*.js`):
  - `Js`: the JSON values the pages receive.
  - `Html`: `escapeHtml`.
  - `Tables`: the raw and processed tables.
  - `Charts`: top-five charts, rank rows, job-label truncation and the export file name.
  - `CrispDm`: the career counting, grouping and `renderTabla` loops, as `method`s with invariants.
- **Helpers:** `Wrappers`, `Text` and `Seqs` hold the generic string and sequence functions and their lemmas.

`frontend/main.js` and `frontend/dashboard.js` repeat helpers of
`frontend/common.js` with identical bodies. One Dafny member models each
helper, and its row names the copies.

Where the classifier and the salary step are concerned, the model follows
the code:

- **Salary.** The stored salary is the matched `[\d.,]+` text. The numeric conversion of `backend/mineria.py:19-20` is discarded at lines 22-24.
- **Classifier.** It is a single scoring pass whose first maximum wins.
- **No cache.** No statistics cache exists, so none is modelled.

## Model

| member | source | states |
|---|---|---|
| Salary.RemoveParenGroupsComplete | backend/mineria.py:17 | after `\(.*?\)` removal no `(` is followed by a `)` on its line |
| Salary.RemoveParenGroupsFixpoint | backend/mineria.py:17 | text without such a group is unchanged |
| Salary.RemoveParenGroupsIdempotent | backend/mineria.py:17 | removing the groups twice is removing them once |
| Salary.ExtractAmount | backend/mineria.py:18 | the extracted group is a non-empty `[\d.,]` run, and there is none exactly when the text has no digit, dot or comma |
| Salary.ExtractAmountIsRegexSearch | backend/mineria.py:18 | the closed form equals the leftmost-match backtracking search of `(\D+)?([\d.,]+)` |
| Salary.StoredSalaryMeaning | backend/mineria.py:17-24 | the stored salary is the regex group of the cleaned, stripped text; an empty or missing cell gives no salary; a stored salary is a non-empty run of digits, dots and commas, never the numeric conversion |
| Careers.ScorePositive | backend/mineria.py:74 | a career scores > 0 exactly when one of its keywords is a substring of the text |
| Careers.FirstMax | backend/mineria.py:75 | `max(d, key=d.get)` returns the first position of the largest score |
| Careers.ClassifyWinner | backend/mineria.py:72-75 | the winner has a positive score, no career beats it, and every earlier career scores strictly less |
| Careers.ClassifyNone | backend/mineria.py:75 | "No clasificado" arises exactly when no keyword of any career occurs |
| Careers.SentinelIsNoCareer | backend/mineria.py:75-78 | rows whose detected career is not the sentinel are exactly the classified ones, labelled with the winner's name |
| Careers.CareerNamesDistinct | backend/mineria.py:64-71 | the six career names are pairwise distinct |
| Careers.SystemsKeywordClassifies | backend/mineria.py:65 | a text containing `python`, `java` or `sql` is always classified |
| Sanitize.CleanCell | backend/mineria.py:82-84 | a missing value (not a string) is returned unchanged |
| Sanitize.CleanProperties | backend/mineria.py:85 | the result has only allowed characters drawn from the input, never grows, is a subsequence of the input, and cleaning twice equals cleaning once |
| Sanitize.CleanIdentity | backend/mineria.py:85 | a string is unchanged exactly when all its characters are allowed |
| Sanitize.CleanDeletesExactly | backend/mineria.py:85 | a character survives exactly when it is in the input and allowed |
| Sanitize.CleanKeepsSalary | backend/mineria.py:86-87 | cleaning never alters a stored salary |
| Sanitize.CleanKeepsCareerNames | backend/mineria.py:86-87 | cleaning never alters a career name |
| Skills.HardColumnByPosition | backend/mineria.py:56 | a technical column is `hard_` plus the name with `/` and space turned into `_` |
| Skills.SoftColumnByPosition | backend/mineria.py:59 | a soft column is `soft_` plus the name with space turned into `_` |
| Skills.SkillColumnPrefixes | backend/mineria.py:55-60 | one column per catalogue entry; the 45 technical columns start with `hard_` and the 11 soft ones with `soft_` |
| Skills.SkillColumnsDistinct | backend/mineria.py:55-60 | the 56 column names are pairwise distinct |
| Skills.FindWord | backend/mineria.py:57 | the scan returns the first position where the literal occurs between two `\b` boundaries |
| Skills.FindWordComplete | backend/mineria.py:57 | the scan succeeds exactly when a word-delimited occurrence exists |
| Skills.ContainsWordContains | backend/mineria.py:57 | a word match is a substring occurrence |
| Skills.SingleLetterSkill | backend/mineria.py:47 | the skill `r` is not found inside `react` but is found as a separate word |
| Skills.DetectSkillsMeaning | backend/mineria.py:55-60 | the flag of each catalogue entry is set exactly when its literal occurs as a whole word |
| Mining.FirstMissing | backend/mineria.py:17-63 | it finds a read column absent from the header exactly when one exists, and all columns before it are present |
| Mining.ProcessOutcome | backend/mineria.py:4-140 | the step fails with `KeyError` exactly when a column it reads is missing, and otherwise mines the rows |
| Mining.KeptMeaning | backend/mineria.py:26-35 | a row survives iff its lower-cased title or description names an engineering keyword and a career claims it; survivors keep input order |
| Mining.SkillTextFlat | backend/mineria.py:38-40 | `texto_skills` holds no CR or LF |
| Mining.RowSkills | backend/mineria.py:55-60 | each output row has one flag per catalogue entry, set iff the whole-word match holds in `texto_skills` |
| Mining.RowCareer | backend/mineria.py:72-78 | the career cell of a kept row is the winning career's name |
| Mining.RowTitle | backend/mineria.py:32-87 | the title cell is lower-cased and holds only allowed characters |
| Mining.RowFilled | backend/mineria.py:17-113 | company and modality are the cleaned cell or "No especificado"; workday is not filled; salary is the extracted text or the placeholder, never a number |
| Mining.AddSkillColumns | backend/mineria.py:55-60 | the two loops add the `hard_` names and then the `soft_` names, each with its flag column |
| Mining.NamesAreSkillColumns | backend/mineria.py:55-60 | over the two catalogues those names are exactly the skill columns |
| Mining.CleanColumns | backend/mineria.py:86-87 | the loop replaces every text column by its cleaned cells |
| Mining.FillColumns | backend/mineria.py:106-113 | the loop fills company, salary and modality, recording exactly the columns that had a gap |
| Mining.AssembleRows | backend/mineria.py:115-120 | the `df_final` rows are the filled base cells followed by the flags |
| Mining.FilterAndFlag | backend/mineria.py:26-78 | both filters and the skill loops produce the kept rows, their careers and the flag columns |
| Mining.BuildTable | backend/mineria.py:80-120 | cleaning, filling and assembly give the transformed rows and `rellenos` |
| Mining.MineRows | backend/mineria.py:16-140 | the column-by-column step equals the row-by-row specification |
| Mining.Mine | backend/mineria.py:4-140 | the whole step, failure included, equals the specification |
| Mining.RellenosMeaning | backend/mineria.py:106-113 | `rellenos` lists, in the order company, salary, modality, exactly the columns some kept row lacked |
| Mining.MinedSummary | backend/mineria.py:128-137 | `eliminados + finales == originales`, `finales` is the row count, and `transformaciones_salario == finales` |
| Mining.FinalColumnsDistinct | backend/mineria.py:115-117 | the final column names are pairwise distinct |
| Mining.MinedColumns | backend/mineria.py:115-136 | the final columns are the six base columns then every skill column; `habilidades` and the detected columns are the skill part |
| Mining.MinedPreviews | backend/mineria.py:138-139 | both previews are the first (at most) five rows, of the input and of the table |
| Statistics.TitleCase | backend/main.py:46 | the first character of `capitalize()` is its letter's upper case, or itself when it is no lower-case letter; `ß`, `ÿ` and `µ`, whose upper case lies outside Latin-1, become "Ss", `Ÿ` and `Μ` |
| Statistics.Capitalize | backend/main.py:46 | `capitalize()` title-cases the first character and lower-cases the rest; the text keeps its length unless it starts with `ß` |
| Statistics.CapitalizeSharpS | backend/main.py:46 | a label starting with `ß` becomes "Ss" followed by the lower-cased rest, one character longer |
| Statistics.FormatNameMeaning | backend/main.py:44-46 | the label drops everything up to the first `_` (no `_` gives the empty label), turns later `_` into spaces, capitalizes, and contains no `_` |
| Statistics.ILikePrefix | backend/main.py:50 | a wildcard-free pattern followed by `%` matches exactly the texts that start with it, ignoring case |
| Statistics.ILikeSearch | backend/main.py:50 | a leading `%` lets the match start anywhere |
| Statistics.ILikeContains | backend/main.py:50 | `ILIKE '%q%'` is a case-insensitive substring test |
| Statistics.SelectedEmpty | backend/main.py:50-52 | nothing is selected exactly when no record's career matches |
| Statistics.Frequency | backend/main.py:58-64 | a frequency never exceeds the number of records |
| Statistics.RankingMeaning | backend/main.py:55-65 | one entry per prefixed column, labelled and carrying its frequency, in non-increasing frequency order |
| Statistics.SkillStatisticsMeaning | backend/main.py:48-66 | "not found" exactly when nothing matches; otherwise `total_ofertas` is the selection size and the lists rank the `hard_` and `soft_` columns |
| Limpieza.LimpiarDigits | backend/main.py:139-144 | a salary of plain digits reads as the value of those digits |
| Limpieza.LimpiarNatural | backend/main.py:139-144 | a natural number written in decimal reads as itself |
| Limpieza.LimpiarComma | backend/main.py:141-142 | `a,b` reads as the decimal `a.b`: the comma is the decimal point |
| Limpieza.LimpiarCommaBelowFloor | backend/main.py:141-148 | with at most three digits before the comma the value is below 1000, so a salary written `2,500` never passes the 1500 floor |
| Limpieza.LimpiarThousands | backend/main.py:141-142 | `a.b` reads as the whole number `ab`: the dot is dropped as a thousands separator |
| Limpieza.LimpiarGrouped | backend/main.py:141-142 | `a.b,c` reads as `ab,c` does, the decimal `ab.c` |
| Limpieza.LimpiarTwoCommas | backend/main.py:141-144 | two commas become two decimal points and the salary is discarded |
| Limpieza.LimpiarCurrency | backend/main.py:141 | a leading lower-case `s/` makes no difference to the value |
| Limpieza.LimpiarUpperCurrency | backend/main.py:141-144 | an upper-case `S/` before digits is not removed, and the salary is discarded |
| Numerals.ParseFraction | backend/main.py:142 | `float()` of `a.b` is `a` plus the digits of `b` over `10^len(b)` |
| Numerals.ParseTwoDots | backend/main.py:142 | `float()` refuses a numeral with two decimal points |
| Numerals.DecimalBounds | backend/main.py:142 | the fraction digits add less than one to the whole part, and nothing when there are none |
| Statistics.PricedMeaning | backend/main.py:137-147 | an offer is priced iff its record's salary is present, is not "No especificado" and parses |
| Statistics.SalaryListMeaning | backend/main.py:146-152 | salaries are > 1500 and non-decreasing; no title repeats; every title with a salary above 1500 is listed with its highest one |
| Statistics.SalaryStatisticsMeaning | backend/main.py:130-152 | "not found" exactly when nothing matches; otherwise the salary list of the selection |
| Sorting.SortDesc | backend/main.py:58-59 | `sort_values(ascending=False)` is a permutation in non-increasing key order |
| Sorting.SortAsc | backend/main.py:150 | `sort_values()` is a permutation in non-decreasing key order |
| Sorting.SortedMembership | backend/main.py:149-150 | sorting neither adds nor drops elements |
| Html.EscapeByCharacter | frontend/common.js:8-13 | the chained replacements rewrite each character independently, because `&` is replaced first |
| Html.EscapeSafe | frontend/common.js:8-13 | the escaped text contains no `<`, `>`, `"` or `'` |
| Html.EscapeIdentity | frontend/common.js:8-13 | escaping changes a text exactly when it contains one of `& < > " '` |
| Html.EscapeHtmlMeaning | frontend/common.js:6-14 | null and undefined give `''`; the output has no markup characters; a string without the five characters is shown as is; the copy at frontend/main.js:294-302 is identical |
| Html.UnescapeEscape | frontend/common.js:8-13 | decoding `&lt; &gt; &quot; &#039;` and then `&amp;` recovers the original text |
| Tables.Truncate | frontend/common.js:66 | the result fits the bound; it is unchanged exactly when the text fits; otherwise it is the prefix plus `...` |
| Tables.TruncarTexto | frontend/common.js:63-69 | `full` is the text or `-`; `display` has at most 30 characters and equals `full` iff `full` fits, else 27 characters plus `...` |
| Tables.StripKind | frontend/common.js:57 | putting the kind prefix back in front of the result gives the column again, so exactly one leading `hard_` or `soft_` is removed; a column with neither is kept |
| Tables.Capitalize | frontend/common.js:59 | each ASCII word character at a word start is upper-cased; everything else is kept |
| Tables.FormatColumnMeaning | frontend/common.js:55-60 | base columns are unchanged; others lose the kind prefix, every `_` becomes a space (none is left), and word starts are upper-cased |
| Tables.ActiveColumnsMeaning | frontend/common.js:72-77 | a column is active iff it is a `hard_`/`soft_` key of the first row that some row holds 1, true, "true" or "TRUE"; the first row's key order is kept |
| Tables.RawCell | frontend/common.js:31-34 | a raw cell's title is the text or `-`, and its display fits the 30/27 rule |
| Tables.RawTableMeaning | frontend/common.js:16-38 | a notice exactly for an empty or non-array input; otherwise the first record's keys head the table, with one row per record and one cell per key; the copy at frontend/main.js:193-215 is identical |
| Tables.BaseCellMeaning | frontend/common.js:94-97 | a base cell's title and text are the escaped full and truncated texts, with no markup characters |
| Tables.FlagCellMeaning | frontend/common.js:100-104 | a skill cell is centred and shows `1` exactly when the value is active, else `0` |
| Tables.ProcessedRowMeaning | frontend/common.js:90-107 | a body row has the six base cells followed by one flag cell per active column |
| Tables.ProcessedHeaders | frontend/common.js:80-87 | the headers are the six base names and then the formatted active columns |
| Tables.ProcessedTableMeaning | frontend/common.js:45-109 | a notice exactly for an empty or non-array input; otherwise the headers and one processed row per record; the copy at frontend/main.js:222-286 is identical |
| Charts.Top5 | frontend/main.js:26-27 | at most five entries, a prefix of the server order, and all entries when there are fewer than five; the copy at frontend/dashboard.js:31-32 is identical |
| Charts.ChartSeries | frontend/main.js:29-34 | the chart labels and values are the names and frequencies of the top five, position by position |
| Charts.RankFrom | frontend/main.js:37-41 | entry `i` is numbered `start + i` |
| Charts.RankCell | frontend/main.js:38 | a rank row opens with `<tr><td>` and then the decimal rank, which reads back as the number |
| Charts.RankRowsMeaning | frontend/main.js:37-41 | at most five rows, row `i` showing entry `i` with rank `i + 1`; the copy at frontend/dashboard.js:44-48 is identical |
| Charts.JobLabel | frontend/main.js:49 | a label has at most 40 characters; it is unchanged iff it fits, else 37 characters plus `...`; null or undefined `puesto` throws; the copy at frontend/dashboard.js:62 is identical |
| Charts.JobLabels | frontend/main.js:49 | the labels are computed position by position, and the map fails exactly when some `puesto` throws |
| Charts.SalaryChartMeaning | frontend/main.js:48-50 | a falsy `salarios` gives an empty chart; the handler throws exactly when `salarios` is a truthy non-array or some `puesto` is null or undefined; otherwise the values are the salaries and the labels the truncated titles; the copy at frontend/dashboard.js:61-63 is identical |
| Charts.StripAccentsByCharacter | frontend/main.js:124 | NFD followed by mark removal replaces each accented letter by its base letter |
| Charts.SlugMeaning | frontend/main.js:122-125 | the slug has no whitespace, no combining mark and no upper-case letter |
| Charts.SlugSeparators | frontend/main.js:125 | for a name without `_`, no two `_` of the slug are adjacent, and dropping them leaves the lower-cased, accent-stripped name without its whitespace, in order; the copy at frontend/dashboard.js:135 is identical |
| Charts.SlugRun | frontend/main.js:125 | a whitespace run between two parts that do not touch whitespace becomes exactly one `_`, and each side is slugged on its own |
| Charts.SlugPlain | frontend/main.js:122-125 | a name of plain lower-case letters is its own slug |
| Charts.ExportFileNameMeaning | frontend/main.js:118-127 | the file name is `habilidades_` + slug + `_` + decimal year + `.pdf`, the year reading back as itself; the copy at frontend/dashboard.js:128-137 is identical |
| Charts.FallbackFileName | frontend/main.js:118 | an empty career gives `habilidades_ingenieria_<year>.pdf` |
| CrispDm.LabelsMeaning | frontend/crispdm.js:93 | a record with a falsy career is labelled "Sin clasificar" and any other by its career's text, which is never empty; so the label is "Sin clasificar" exactly when the career is falsy or is that very text; the grouping key at frontend/crispdm.js:117 is the same |
| CrispDm.CountCareers | frontend/crispdm.js:91-95 | the loop yields the first-seen key order and the tally of labels |
| CrispDm.TallyMeaning | frontend/crispdm.js:91-95 | the keys are exactly the labels that occur, each counted as often as it occurs, listed without repetition |
| CrispDm.TallyTotal | frontend/crispdm.js:91-97 | the counts add up to `registros.length` |
| CrispDm.GroupCareers | frontend/crispdm.js:115-120 | the loop yields the key order and the groups of the specification |
| CrispDm.GroupsMeaning | frontend/crispdm.js:115-120 | there is a group per occurring label, holding that label's records in input order, sized as its count |
| CrispDm.GroupsPartition | frontend/crispdm.js:115-120 | every record lies in its label's group, and every group member carries the group's label |
| CrispDm.SectionsMeaning | frontend/crispdm.js:124-128 | each section's summary reads `<carrera> (<count> registros)` and holds the processed table of that group |
| CrispDm.RenderTabla | frontend/crispdm.js:161-182 | the `tbody +=` loop produces the specified table |
| CrispDm.BodyRowsMeaning | frontend/crispdm.js:175-179 | the accumulated body is the concatenation of one row per record |
| CrispDm.TablaMeaning | frontend/crispdm.js:161-182 | no data gives the single "No hay registros" row; otherwise the headers are the first record's keys, with one row per record and one cell per header |
| CrispDm.RenderSideTable | frontend/crispdm.js:141-151 | a non-empty side list is rendered by `renderTabla`, and anything else gives its one-cell notice |

## Left out

- Reading the CSV (`utf-8` with a `latin1` fallback) is file I/O. The step takes decoded rows, and `originales` is the number of input rows.
- The database, the upload endpoints' insert loops, FastAPI routing, `verificar_modelo` (sklearn), the JSON precision file and the energy and resource scripts are not part of this model. They are persistence, foreign calls or floating-point measurement.
- Front-end glue is not modelled: fetch, DOM updates, `innerHTML`, Chart.js, html2pdf, `alert` and `subirCSV`. The page functions are modelled as functions returning markup or values.
- The percentages of `frontend/crispdm.js:99` use `toFixed` on floats and are not modelled. The count rows are modelled through their counts.
- Character classes are given for ASCII and Latin-1 only. This covers Python's `\w` (letters, digits, `_`, and the numerics `¹²³¼½¾`), `\s` and `str.lower`, JavaScript's `\s` and `toLowerCase`, and NFD decomposition. A character above U+00FF counts as outside `\w` and is left unchanged by case mapping. Upper-casing occurs in two places. Python's `capitalize()` (backend/main.py:46) gives the title case of `ß`, `ÿ` and `µ`, which leaves Latin-1, as "Ss", `Ÿ` and `Μ`. JavaScript's `toUpperCase` (frontend/common.js:59, `Tables.UpperAscii`) is applied only to characters JavaScript's `\w` matches, which are ASCII. NFD is decomposed only for the lower-case Latin-1 letters, which are all a lower-cased name can hold in that range.
- Tables.Truncate: lengths are counted in code points. JavaScript's `length`, `substring` and `slice` count UTF-16 code units (frontend/common.js:66, frontend/common.js:34, frontend/main.js:49). There a character above U+FFFF counts twice and a cut can split it in half; in the model it counts once and is never split. The 30 and 40 bounds hold in code points.
- Tables.TruncarTexto: its 30/27 rule counts code points, as for Tables.Truncate.
- Tables.RawCell: its 30/27 rule counts code points, as for Tables.Truncate.
- Charts.JobLabel: its 40/37 rule counts code points, as for Tables.Truncate.
- Charts.JobLabels: counts code points through Charts.JobLabel.
- Statistics.Limpiar: reads only plain decimal numerals with an optional sign, as exact rationals. `float()`'s exponents, `inf`, `nan`, `_` between digits (`float("1_000")` is 1000.0, the model reads no number) and IEEE rounding are not modelled. A mined salary holds no `_`.
- Statistics.SalaryListMeaning: uses a stable sort, so ties keep table order. pandas' default quicksort leaves the order of equal salaries unspecified, and the stated properties do not depend on it.
- Statistics.Ranking: the same stable choice orders skills of equal frequency (backend/main.py:58-59). In the source their order is unspecified, so at a tie on fifth place the model fixes which skill `Charts.Top5` shows; `Statistics.RankingMeaning` and `Statistics.SkillStatisticsMeaning` promise only a permutation in non-increasing order, which holds either way.
- Statistics.ILike: a `%` or `_` in the career query acts as a wildcard, as in SQL. The backslash escape of `LIKE` is not modelled: a `\` is an ordinary character.
- Js.Value: numbers are integers. The salary list carries fractional `salario` values (backend/main.py:152). The salary chart only passes them through, but a fractional value cannot be represented, and `String()` of a non-integral number is not modelled.
- CrispDm.CountCareers: JavaScript objects list integer-like keys first, and prototype names such as `constructor` are truthy before being set. The model keeps insertion order in a separate sequence and treats every label as a plain key.
- The `try`/`catch` error paragraphs of `generarTablaHTML` and `generarTablaHTMLCruda` are not modelled. Nothing inside them throws for the modelled values.
- Tables.GenerarTablaHTML: the complete markup strings are defined, but their properties are proved on the cell and row structure (`Tables.ProcessedTable`), not on the concatenated text.
- The export year comes from the clock (`new Date().getFullYear()`), so it is a parameter.
- Mining.MinedColumns: an input row has exactly the eight fields the step reads, so other input columns are not carried. In the source, an input column already named `hard_…` or `soft_…` is kept among the final columns (backend/mineria.py:115-116). An input column already named like a renamed one, such as `title`, is duplicated by the rename at lines 96-103. The model's final columns are those of an input without such columns.
- Mining.ProcessOutcome: the `MissingColumn` error carries the input name of the first missing column. `Empresa`, `Jornada` and `Tipo_Asistencia` are first used after the rename. When they are missing, pandas raises at backend/mineria.py:120, naming all missing columns under their new names (`company`, `workday`, `modality`). The model states only that the step fails, and which read column is missing first.
- CrispDm.RenderSideTable: a truthy `no_ingenieria` or `no_clasificados` that is not an array gets the message row. In the source (frontend/crispdm.js:141-151) a non-empty string passes the `length > 0` test and `renderTabla` draws a table of its characters, and an object with a positive `length` throws at frontend/crispdm.js:171. The modelled back end (backend/main.py) never sends these keys, so the page shows the message rows.
- CrispDm.GroupCareers: a null or missing `preview_despues` makes the loop at frontend/crispdm.js:116 throw. The records are a sequence in the model, so that failure is not represented.
- Mining.MinedPreviews: `df_antes` is taken from a second read of the file. The model takes it from the same rows.
- The stored record (`Statistics.Stored`) keeps only the fields the statistics read: career, title, salary and the skill flags.

