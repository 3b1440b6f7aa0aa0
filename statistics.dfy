/**
 * The read side of the back end (backend/main.py): the career query, the
 * skill-frequency statistics and the salary list computed over the stored
 * job records.
 */
module Statistics {
  import opened Wrappers
  import opened Text
  import opened Seqs
  import opened Sorting
  import opened Numerals
  import Mining

  // ------------------------------------------------ skill-column labels

  /**
   * The title case `str.capitalize()` gives its first character. Within
   * Latin-1 it is the upper-case letter, except for three lower-case letters
   * whose upper case lies outside Latin-1: `ß` becomes "Ss", `ÿ` becomes `Ÿ`
   * (U+0178) and `µ` becomes the Greek `Μ` (U+039C).
   */
  function TitleCase(c: char): (r: string)
    ensures |r| == if c == 'ß' then 2 else 1
    ensures c != 'ß' && c != 'ÿ' && c != 'µ' ==> r == [Upper(c)]
    ensures !IsLowerLetter(r[0])
    ensures r == [c] <==> !IsLowerLetter(c) && c != 'ß' && c != 'ÿ' && c != 'µ'
  {
    if c == 'ß' then "Ss"
    else if c == 'ÿ' then "\U{178}"
    else if c == 'µ' then "\U{39c}"
    else [Upper(c)]
  }

  /**
   * `str.capitalize()`: the first character title-cased, every other one
   * lower-cased; only a leading `ß` makes the text longer.
   */
  function Capitalize(s: string): (r: string)
    ensures |r| == |s| + (if s != [] && s[0] == 'ß' then 1 else 0)
    ensures s != [] ==> r[..|r| - |s| + 1] == TitleCase(s[0])
    ensures forall i :: 0 < i < |s| ==> r[|r| - |s| + i] == Lower(s[i])
  {
    if s == [] then [] else TitleCase(s[0]) + LowerStr(s[1..])
  }

  /** A name beginning with `ß` is capitalized to "Ss", one character longer. */
  lemma CapitalizeSharpS(t: string)
    ensures Capitalize("ß" + t) == "Ss" + LowerStr(t)
    ensures |Capitalize("ß" + t)| == |t| + 2
  {
    assert ("ß" + t)[1..] == t;
  }

  /** `formatear_nombre` (main.py:44-46): drop the segment before the first `_`, join the rest with spaces, capitalize. */
  function FormatName(nombre: string): string {
    Capitalize(Join(Split(nombre, '_')[1..], " "))
  }

  /** A name without `_` gives the empty label. */
  lemma FormatNameNoSeparator(nombre: string)
    requires '_' !in nombre
    ensures FormatName(nombre) == ""
  {
    SplitWithoutSeparator(nombre, '_');
  }

  /** With the first `_` at `k`, the label is what follows it with every further `_` turned into a space, capitalized. */
  lemma FormatNameAt(nombre: string, k: nat)
    requires k < |nombre| && nombre[k] == '_' && '_' !in nombre[..k]
    ensures FormatName(nombre) == Capitalize(ReplaceAll(nombre[k + 1..], "_", " "))
    ensures '_' !in FormatName(nombre)
  {
    SplitAtFirst(nombre, '_', k);
    assert Split(nombre, '_')[1..] == Split(nombre[k + 1..], '_');
    JoinSplitReplace(nombre[k + 1..], '_', ' ');
    var rest := nombre[k + 1..];
    ReplaceAllChar(rest, '_', ' ');
    var shown := Capitalize(ReplaceAll(rest, "_", " "));
    forall i | 0 <= i < |shown| ensures shown[i] != '_' {
    }
  }

  /** A name with some `_` has a first one. */
  lemma FirstSeparator(nombre: string) returns (k: nat)
    requires '_' in nombre
    ensures k < |nombre| && nombre[k] == '_' && '_' !in nombre[..k]
  {
    k :| 0 <= k < |nombre| && nombre[k] == '_';
    while '_' in nombre[..k]
      invariant k < |nombre| && nombre[k] == '_'
      decreases k
    {
      var j :| 0 <= j < k && nombre[..k][j] == '_';
      k := j;
    }
  }

  /**
   * `formatear_nombre` drops everything up to the first `_` (a name without
   * one gives the empty label), spaces out the remaining `_`, and capitalizes;
   * no `_` is left in a label.
   */
  lemma FormatNameMeaning(nombre: string)
    ensures '_' !in nombre ==> FormatName(nombre) == ""
    ensures forall k :: 0 <= k < |nombre| && nombre[k] == '_' && '_' !in nombre[..k] ==>
      FormatName(nombre) == Capitalize(ReplaceAll(nombre[k + 1..], "_", " "))
    ensures '_' !in FormatName(nombre)
  {
    if '_' !in nombre {
      FormatNameNoSeparator(nombre);
    } else {
      var k := FirstSeparator(nombre);
      FormatNameAt(nombre, k);
      forall k' | 0 <= k' < |nombre| && nombre[k'] == '_' && '_' !in nombre[..k']
        ensures FormatName(nombre) == Capitalize(ReplaceAll(nombre[k' + 1..], "_", " "))
      {
        FormatNameAt(nombre, k');
      }
    }
  }

  // ------------------------------------------------ the career query

  /**
   * SQL `ILIKE`: `%` matches any run of characters, `_` any single character,
   * and every other character matches itself ignoring case.
   */
  predicate ILike(s: string, pat: string)
    decreases |s| + |pat|
  {
    if pat == [] then s == []
    else if pat[0] == '%' then ILike(s, pat[1..]) || (s != [] && ILike(s[1..], pat))
    else s != [] && (pat[0] == '_' || Lower(s[0]) == Lower(pat[0])) && ILike(s[1..], pat[1..])
  }

  /** The query has none of the two wildcard characters. */
  predicate WildcardFree(q: string) {
    '%' !in q && '_' !in q
  }

  lemma {:induction false} ILikeAnything(s: string)
    ensures ILike(s, "%")
  {
    assert "%"[1..] == [];
    if s != [] {
      ILikeAnything(s[1..]);
    }
  }

  /** A wildcard-free query followed by `%` matches exactly the texts that start with it, ignoring case. */
  lemma {:induction false} ILikePrefix(s: string, q: string)
    requires WildcardFree(q)
    ensures ILike(s, q + "%") <==> |q| <= |s| && forall i :: 0 <= i < |q| ==> Lower(s[i]) == Lower(q[i])
  {
    if q == [] {
      assert q + "%" == "%";
      ILikeAnything(s);
    } else {
      assert (q + "%")[0] == q[0] && (q + "%")[1..] == q[1..] + "%";
      assert WildcardFree(q[1..]) by {
        assert forall c :: c in q[1..] ==> c in q;
      }
      if s != [] {
        ILikePrefix(s[1..], q[1..]);
      }
    }
  }

  /** A pattern after a leading `%` may start matching at any position. */
  lemma {:induction false} ILikeSearch(s: string, p: string)
    ensures ILike(s, "%" + p) <==> exists k :: 0 <= k <= |s| && ILike(s[k..], p)
  {
    assert ("%" + p)[0] == '%' && ("%" + p)[1..] == p;
    assert s[0..] == s;
    if s != [] {
      ILikeSearch(s[1..], p);
      if exists k :: 0 <= k <= |s[1..]| && ILike(s[1..][k..], p) {
        var k :| 0 <= k <= |s[1..]| && ILike(s[1..][k..], p);
        assert s[1..][k..] == s[k + 1..];
      }
      if exists k :: 1 <= k <= |s| && ILike(s[k..], p) {
        var k :| 1 <= k <= |s| && ILike(s[k..], p);
        assert s[1..][k - 1..] == s[k..];
      }
    }
  }

  /** Matching a wildcard-free prefix at `k` is finding its lower-cased form at `k` of the lower-cased text. */
  lemma ILikeAt(s: string, q: string, k: nat)
    requires WildcardFree(q) && k <= |s|
    ensures ILike(s[k..], q + "%") <==> OccursAt(LowerStr(s), LowerStr(q), k)
  {
    ILikePrefix(s[k..], q);
    if k + |q| <= |s| {
      LowerWindow(s, q, k);
    }
  }

  lemma LowerWindow(s: string, q: string, k: nat)
    requires k + |q| <= |s|
    ensures (forall i :: 0 <= i < |q| ==> Lower(s[k..][i]) == Lower(q[i])) <==> LowerStr(s)[k..k + |q|] == LowerStr(q)
  {
    if LowerStr(s)[k..k + |q|] == LowerStr(q) {
      forall i | 0 <= i < |q| ensures Lower(s[k..][i]) == Lower(q[i]) {
        assert LowerStr(s)[k..k + |q|][i] == LowerStr(q)[i];
      }
    }
  }

  /** For a query without wildcards, `ILIKE '%q%'` is a case-insensitive substring test. */
  lemma ILikeContains(s: string, q: string)
    requires WildcardFree(q)
    ensures ILike(s, "%" + q + "%") <==> Contains(LowerStr(s), LowerStr(q))
  {
    assert "%" + q + "%" == "%" + (q + "%");
    ILikeSearch(s, q + "%");
    forall k | 0 <= k <= |s|
      ensures ILike(s[k..], q + "%") <==> OccursAt(LowerStr(s), LowerStr(q), k)
    {
      ILikeAt(s, q, k);
    }
  }

  // ------------------------------------------------ stored records

  /** A row of the job table as the statistics read it: career, title, salary and the skill flags by column. */
  datatype Stored = Stored(career: Option<string>, title: Option<string>, salary: Option<string>, skills: map<string, bool>)

  /** The table: the names of its skill columns, in table order, and its rows. */
  datatype Store = Store(columns: seq<string>, records: seq<Stored>)

  /** `"%" + carrera.strip() + "%"` */
  function Pattern(carrera: string): string {
    "%" + Strip(carrera) + "%"
  }

  /** `Habilidad.career.ilike(...)`: a missing career matches nothing. */
  predicate Matches(carrera: string, r: Stored) {
    r.career.Some? && ILike(r.career.value, Pattern(carrera))
  }

  /** `registros` (main.py:50, 132): the selected records, in table order. */
  function Selected(records: seq<Stored>, carrera: string): seq<Stored> {
    Where(records, (r: Stored) => Matches(carrera, r))
  }

  const NotFound := "No se encontraron resultados para esa carrera."

  /** Nothing is selected exactly when no record's career matches the query. */
  lemma SelectedEmpty(records: seq<Stored>, carrera: string)
    ensures Selected(records, carrera) == [] <==> forall i :: 0 <= i < |records| ==> !Matches(carrera, records[i])
  {
    var p := (r: Stored) => Matches(carrera, r);
    forall i | 0 <= i < |records| && Matches(carrera, records[i]) ensures Selected(records, carrera) != [] {
      WhereMembership(records, p, records[i]);
    }
    if Selected(records, carrera) != [] {
      var x := Selected(records, carrera)[0];
      assert x in records && Matches(carrera, x);
      var i :| 0 <= i < |records| && records[i] == x;
    }
  }

  // ------------------------------------------------ skill statistics

  /** One entry of `habilidades_tecnicas` / `habilidades_blandas`. */
  datatype Entry = Entry(nombre: string, frecuencia: nat)

  datatype SkillReport =
    | SkillsNotFound(message: string)
    | SkillsFound(carrera: string, totalOfertas: nat, tecnicas: seq<Entry>, blandas: seq<Entry>)

  /** A column total: `df[cols].sum()` entry. */
  datatype Total = Total(column: string, sum: nat)

  /** How many of the records have the flag of `column` set. */
  function Frequency(rs: seq<Stored>, column: string): (n: nat)
    ensures n <= |rs|
  {
    Count(rs, (r: Stored) => column in r.skills && r.skills[column])
  }

  /** The columns whose name starts with `prefix`, in table order (main.py:55-56). */
  function ColumnsWith(columns: seq<string>, prefix: string): seq<string> {
    Where(columns, (c: string) => StartsWith(c, prefix))
  }

  function Totals(columns: seq<string>, rs: seq<Stored>, prefix: string): seq<Total> {
    MapSeq((c: string) => Total(c, Frequency(rs, c)), ColumnsWith(columns, prefix))
  }

  function SumKey(t: Total): real { t.sum as real }

  function EntryKey(e: Entry): real { e.frecuencia as real }

  function ToEntry(t: Total): Entry { Entry(FormatName(t.column), t.sum) }

  /** Lines 58-59 and 64-65: the totals by decreasing sum, each labelled with `formatear_nombre`. */
  function Ranking(columns: seq<string>, rs: seq<Stored>, prefix: string): seq<Entry> {
    MapSeq(ToEntry, SortDesc(Totals(columns, rs, prefix), SumKey))
  }

  /** `estadisticas_habilidades` (main.py:48-66). */
  function SkillStatistics(st: Store, carrera: string): SkillReport {
    var rs := Selected(st.records, carrera);
    if rs == [] then SkillsNotFound(NotFound)
    else SkillsFound(carrera, |rs|, Ranking(st.columns, rs, "hard_"), Ranking(st.columns, rs, "soft_"))
  }

  /** The entry a column should produce: its label and its frequency. */
  function EntryOf(rs: seq<Stored>, c: string): Entry {
    Entry(FormatName(c), Frequency(rs, c))
  }

  /**
   * A ranking holds exactly one entry per column with the prefix (labelled,
   * with its frequency), in order of non-increasing frequency, and no
   * frequency exceeds the number of records.
   */
  lemma RankingMeaning(columns: seq<string>, rs: seq<Stored>, prefix: string)
    ensures var r := Ranking(columns, rs, prefix);
      multiset(r) == multiset(MapSeq((c: string) => EntryOf(rs, c), ColumnsWith(columns, prefix)))
      && NonIncreasing(r, EntryKey)
      && forall i :: 0 <= i < |r| ==> r[i].frecuencia <= |rs|
  {
    var totals := Totals(columns, rs, prefix);
    SortMapped(totals, SumKey, ToEntry, EntryKey);
    var direct := MapSeq((c: string) => EntryOf(rs, c), ColumnsWith(columns, prefix));
    assert MapSeq(ToEntry, totals) == direct;
    var r := Ranking(columns, rs, prefix);
    forall i | 0 <= i < |r| ensures r[i].frecuencia <= |rs| {
      assert r[i] in multiset(direct);
    }
  }

  /**
   * The statistics report "not found" exactly when no record matches; otherwise
   * `total_ofertas` counts the matching records and the two lists are the
   * rankings of the `hard_` and `soft_` columns.
   */
  lemma SkillStatisticsMeaning(st: Store, carrera: string)
    ensures SkillStatistics(st, carrera).SkillsNotFound? <==>
      forall i :: 0 <= i < |st.records| ==> !Matches(carrera, st.records[i])
    ensures SkillStatistics(st, carrera).SkillsNotFound? ==> SkillStatistics(st, carrera).message == NotFound
    ensures var rep := SkillStatistics(st, carrera);
      var rs := Selected(st.records, carrera);
      rep.SkillsFound? ==>
        rep.carrera == carrera
        && rep.totalOfertas == Count(st.records, (r: Stored) => Matches(carrera, r))
        && multiset(rep.tecnicas) == multiset(MapSeq((c: string) => EntryOf(rs, c), ColumnsWith(st.columns, "hard_")))
        && multiset(rep.blandas) == multiset(MapSeq((c: string) => EntryOf(rs, c), ColumnsWith(st.columns, "soft_")))
        && NonIncreasing(rep.tecnicas, EntryKey) && NonIncreasing(rep.blandas, EntryKey)
        && (forall i :: 0 <= i < |rep.tecnicas| ==> rep.tecnicas[i].frecuencia <= rep.totalOfertas)
        && (forall i :: 0 <= i < |rep.blandas| ==> rep.blandas[i].frecuencia <= rep.totalOfertas)
  {
    var rs := Selected(st.records, carrera);
    SelectedEmpty(st.records, carrera);
    CountIsWhere(st.records, (r: Stored) => Matches(carrera, r));
    RankingMeaning(st.columns, rs, "hard_");
    RankingMeaning(st.columns, rs, "soft_");
  }

  // ------------------------------------------------ salary statistics

  /** The three replacements of `limpiar`: drop `s/`, drop every `.`, turn `,` into `.`. */
  function Cleaned(s: string): string {
    ReplaceAll(ReplaceAll(ReplaceAll(s, "s/", ""), ".", ""), ",", ".")
  }

  /** `limpiar` (main.py:139-144): the replacements, then strip, lower-case and parse. */
  function Limpiar(s: string): Option<real> {
    ParseDecimal(LowerStr(Strip(Cleaned(s))))
  }

  /** One entry of `salarios`. */
  datatype Offer = Offer(puesto: Option<string>, salario: real)

  datatype SalaryReport = SalariesNotFound(message: string) | Salaries(salarios: seq<Offer>)

  /** Line 137: a salary that is present and not the placeholder. */
  predicate HasSalaryText(r: Stored) {
    r.salary.Some? && r.salary.value != Mining.Placeholder
  }

  /** `salario_numerico` of a record that passes line 137, or `None` when it is excluded there or does not parse. */
  function SalaryValue(r: Stored): Option<real> {
    if HasSalaryText(r) then Limpiar(r.salary.value) else None
  }

  /** The records with a value, as offers, in table order. */
  function PricedBy(rs: seq<Stored>, value: Stored -> Option<real>): seq<Offer> {
    if rs == [] then []
    else (if value(rs[0]).Some? then [Offer(rs[0].title, value(rs[0]).value)] else []) + PricedBy(rs[1..], value)
  }

  /** Lines 137-147: the records whose salary text parses, with the parsed value. */
  function Priced(rs: seq<Stored>): seq<Offer> {
    PricedBy(rs, SalaryValue)
  }

  /** An offer comes from a record with a value, carrying its title and that value. */
  lemma {:induction false} PricedByMeaning(rs: seq<Stored>, value: Stored -> Option<real>, o: Offer)
    ensures o in PricedBy(rs, value) <==> exists i :: 0 <= i < |rs| && value(rs[i]) == Some(o.salario) && o.puesto == rs[i].title
  {
    if rs != [] {
      PricedByMeaning(rs[1..], value, o);
      if exists i :: 1 <= i < |rs| && value(rs[i]) == Some(o.salario) && o.puesto == rs[i].title {
        var i :| 1 <= i < |rs| && value(rs[i]) == Some(o.salario) && o.puesto == rs[i].title;
        assert rs[1..][i - 1] == rs[i];
      }
      if exists i :: 0 <= i < |rs[1..]| && value(rs[1..][i]) == Some(o.salario) && o.puesto == rs[1..][i].title {
        var i :| 0 <= i < |rs[1..]| && value(rs[1..][i]) == Some(o.salario) && o.puesto == rs[1..][i].title;
        assert rs[i + 1] == rs[1..][i];
      }
    }
  }

  /**
   * A priced offer comes from a record whose salary is present, is not the
   * placeholder and parses, with that record's title and parsed value.
   */
  lemma PricedMeaning(rs: seq<Stored>, o: Offer)
    ensures o in Priced(rs) <==>
      exists i :: 0 <= i < |rs| && HasSalaryText(rs[i]) && Limpiar(rs[i].salary.value) == Some(o.salario) && o.puesto == rs[i].title
  {
    PricedByMeaning(rs, SalaryValue, o);
  }

  function Salario(o: Offer): real { o.salario }

  function Puesto(o: Offer): Option<string> { o.puesto }

  /** Line 148. */
  predicate AboveFloor(o: Offer) { o.salario > 1500.0 }

  /** `drop_duplicates(subset=["title"])`: the first offer of each title, with titles already met in `seen` skipped. */
  function KeepFirst(xs: seq<Offer>, seen: set<Option<string>>): seq<Offer> {
    if xs == [] then []
    else if xs[0].puesto in seen then KeepFirst(xs[1..], seen)
    else [xs[0]] + KeepFirst(xs[1..], seen + {xs[0].puesto})
  }

  /** The kept offers come from `xs` and have no title of `seen`. */
  lemma {:induction false} KeepFirstFrom(xs: seq<Offer>, seen: set<Option<string>>)
    ensures forall o :: o in KeepFirst(xs, seen) ==> o in xs && o.puesto !in seen
  {
    if xs != [] {
      if xs[0].puesto in seen {
        KeepFirstFrom(xs[1..], seen);
      } else {
        KeepFirstFrom(xs[1..], seen + {xs[0].puesto});
      }
    }
  }

  /** No title is kept twice. */
  lemma {:induction false} KeepFirstDistinct(xs: seq<Offer>, seen: set<Option<string>>)
    ensures DistinctBy(KeepFirst(xs, seen), Puesto)
  {
    if xs != [] {
      var x := xs[0];
      if x.puesto in seen {
        KeepFirstDistinct(xs[1..], seen);
      } else {
        var rest := KeepFirst(xs[1..], seen + {x.puesto});
        KeepFirstDistinct(xs[1..], seen + {x.puesto});
        KeepFirstFrom(xs[1..], seen + {x.puesto});
        var r := [x] + rest;
        forall i, j | 0 <= i < j < |r| ensures Puesto(r[i]) != Puesto(r[j]) {
          if i == 0 {
            assert r[j] in rest;
          } else {
            assert r[i] == rest[i - 1] && r[j] == rest[j - 1];
          }
        }
      }
    }
  }

  /** Every title of `xs` outside `seen` is kept. */
  lemma {:induction false} KeepFirstCovers(xs: seq<Offer>, seen: set<Option<string>>)
    ensures forall o :: o in xs && o.puesto !in seen ==> exists k :: k in KeepFirst(xs, seen) && k.puesto == o.puesto
  {
    if xs != [] {
      var x := xs[0];
      if x.puesto in seen {
        KeepFirstCovers(xs[1..], seen);
        assert forall o :: o in xs && o.puesto !in seen ==> o in xs[1..];
      } else {
        var rest := KeepFirst(xs[1..], seen + {x.puesto});
        KeepFirstCovers(xs[1..], seen + {x.puesto});
        var r := [x] + rest;
        forall o | o in xs && o.puesto !in seen ensures exists k :: k in r && k.puesto == o.puesto {
          if o.puesto == x.puesto {
            assert x in r;
          } else {
            assert o in xs[1..];
            var k :| k in rest && k.puesto == o.puesto;
            assert k in r;
          }
        }
      }
    }
  }

  /** On offers ordered by decreasing salary, the offer kept for a title carries that title's highest salary. */
  lemma {:induction false} KeepFirstMax(xs: seq<Offer>, seen: set<Option<string>>)
    requires NonIncreasing(xs, Salario)
    ensures forall o, o2 :: o in KeepFirst(xs, seen) && o2 in xs && o2.puesto == o.puesto ==> o2.salario <= o.salario
  {
    if xs != [] {
      var x := xs[0];
      assert NonIncreasing(xs[1..], Salario);
      var seen' := if x.puesto in seen then seen else seen + {x.puesto};
      KeepFirstMax(xs[1..], seen');
      KeepFirstFrom(xs[1..], seen');
      forall o, o2 | o in KeepFirst(xs, seen) && o2 in xs && o2.puesto == o.puesto ensures o2.salario <= o.salario {
        if x.puesto !in seen && o == x {
          var j :| 0 <= j < |xs| && xs[j] == o2;
          assert j == 0 || Salario(xs[0]) >= Salario(xs[j]);
        } else {
          assert o in KeepFirst(xs[1..], seen');
          assert o2 in xs[1..] by {
            assert xs == [x] + xs[1..];
          }
        }
      }
    }
  }

  /** Lines 148-150 on the parsed offers: above 1500, the best one per title, in increasing order. */
  function BestPerTitle(offers: seq<Offer>): seq<Offer> {
    SortAsc(KeepFirst(SortDesc(Where(offers, AboveFloor), Salario), {}), Salario)
  }

  /** Lines 146-150: the salary list of the selected records. */
  function SalaryList(rs: seq<Stored>): seq<Offer> {
    BestPerTitle(Priced(rs))
  }

  /** `estadisticas_salarios` (main.py:130-152). */
  function SalaryStatistics(st: Store, carrera: string): SalaryReport {
    var rs := Selected(st.records, carrera);
    if rs == [] then SalariesNotFound(NotFound) else Salaries(SalaryList(rs))
  }

  /** Every listed offer is one of the offers, above 1500. */
  lemma BestFrom(offers: seq<Offer>)
    ensures forall o :: o in BestPerTitle(offers) ==> o in offers && o.salario > 1500.0
  {
    var above := Where(offers, AboveFloor);
    var ranked := SortDesc(above, Salario);
    var kept := KeepFirst(ranked, {});
    KeepFirstFrom(ranked, {});
    forall o | o in BestPerTitle(offers) ensures o in offers && o.salario > 1500.0 {
      SortedMembership(kept, Salario, o);
      SortedMembership(above, Salario, o);
    }
  }

  /** The list is in non-decreasing order of salary and no title occurs twice. */
  lemma BestOrdered(offers: seq<Offer>)
    ensures NonDecreasing(BestPerTitle(offers), Salario)
    ensures DistinctBy(BestPerTitle(offers), Puesto)
  {
    var kept := KeepFirst(SortDesc(Where(offers, AboveFloor), Salario), {});
    KeepFirstDistinct(SortDesc(Where(offers, AboveFloor), Salario), {});
    DistinctByPermutation(kept, SortAsc(kept, Salario), Puesto);
  }

  /** A listed offer carries the highest salary among the offers above 1500 with its title. */
  lemma BestIsMax(offers: seq<Offer>)
    ensures forall o, o2 :: o in BestPerTitle(offers) && o2 in offers && o2.salario > 1500.0 && o2.puesto == o.puesto ==>
      o2.salario <= o.salario
  {
    var above := Where(offers, AboveFloor);
    var ranked := SortDesc(above, Salario);
    var kept := KeepFirst(ranked, {});
    KeepFirstMax(ranked, {});
    forall o, o2 | o in BestPerTitle(offers) && o2 in offers && o2.salario > 1500.0 && o2.puesto == o.puesto
      ensures o2.salario <= o.salario
    {
      SortedMembership(kept, Salario, o);
      WhereMembership(offers, AboveFloor, o2);
      SortedMembership(above, Salario, o2);
    }
  }

  /** Every title with an offer above 1500 is listed. */
  lemma BestCovers(offers: seq<Offer>)
    ensures forall o2 :: o2 in offers && o2.salario > 1500.0 ==> exists o :: o in BestPerTitle(offers) && o.puesto == o2.puesto
  {
    var above := Where(offers, AboveFloor);
    var ranked := SortDesc(above, Salario);
    var kept := KeepFirst(ranked, {});
    KeepFirstCovers(ranked, {});
    forall o2 | o2 in offers && o2.salario > 1500.0 ensures exists o :: o in BestPerTitle(offers) && o.puesto == o2.puesto {
      WhereMembership(offers, AboveFloor, o2);
      SortedMembership(above, Salario, o2);
      var k :| k in kept && k.puesto == o2.puesto;
      SortedMembership(kept, Salario, k);
    }
  }

  /**
   * The salary list is in non-decreasing order, every salary in it is above
   * 1500 and parsed from a record, no title occurs twice, every title with a
   * salary above 1500 is listed, and with its highest such salary.
   */
  lemma SalaryListMeaning(rs: seq<Stored>)
    ensures var out := SalaryList(rs);
      NonDecreasing(out, Salario)
      && (forall o :: o in out ==> o.salario > 1500.0 && o in Priced(rs))
      && DistinctBy(out, Puesto)
      && (forall o, o2 :: o in out && o2 in Priced(rs) && o2.salario > 1500.0 && o2.puesto == o.puesto ==>
            o2.salario <= o.salario)
      && (forall o2 :: o2 in Priced(rs) && o2.salario > 1500.0 ==> exists o :: o in out && o.puesto == o2.puesto)
  {
    BestFrom(Priced(rs));
    BestOrdered(Priced(rs));
    BestIsMax(Priced(rs));
    BestCovers(Priced(rs));
  }

  /** The salary statistics report "not found" exactly when no record matches; otherwise they list the selection. */
  lemma SalaryStatisticsMeaning(st: Store, carrera: string)
    ensures SalaryStatistics(st, carrera).SalariesNotFound? <==>
      forall i :: 0 <= i < |st.records| ==> !Matches(carrera, st.records[i])
    ensures SalaryStatistics(st, carrera).SalariesNotFound? ==> SalaryStatistics(st, carrera).message == NotFound
    ensures SalaryStatistics(st, carrera).Salaries? ==>
      SalaryStatistics(st, carrera).salarios == SalaryList(Selected(st.records, carrera))
  {
    SelectedEmpty(st.records, carrera);
  }
}
