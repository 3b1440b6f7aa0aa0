/**
 * The data-preparation page (frontend/crispdm.js): the records of the
 * processed preview counted and grouped by career, the summary line of each
 * group, and `renderTabla`, which lists records under the keys of the first.
 */
module CrispDm {
  import opened Text
  import opened Seqs
  import opened Js
  import opened Tables

  /** The group of records whose career is missing or empty. */
  const Unclassified: string := "Sin clasificar"

  /** `reg.career || 'Sin clasificar'`, as the key it becomes. */
  function Label(reg: Record): string {
    var v := Get(reg, "career");
    if Falsy(v) then Unclassified else ToStr(v)
  }

  function Labels(regs: seq<Record>): (ls: seq<string>)
    ensures |ls| == |regs|
    ensures forall i :: 0 <= i < |regs| ==> ls[i] == Label(regs[i])
  {
    MapSeq(Label, regs)
  }

  /**
   * A record whose career is falsy is labelled "Sin clasificar"; any other
   * record is labelled by the text of its career, which is never empty. So
   * the label is "Sin clasificar" exactly when the career is falsy or is that
   * very text.
   */
  lemma LabelsMeaning(regs: seq<Record>)
    ensures |Labels(regs)| == |regs|
    ensures forall i :: 0 <= i < |regs| && Falsy(Get(regs[i], "career")) ==> Labels(regs)[i] == Unclassified
    ensures forall i :: 0 <= i < |regs| && !Falsy(Get(regs[i], "career")) ==>
      Labels(regs)[i] == ToStr(Get(regs[i], "career")) && Labels(regs)[i] != ""
    ensures forall i :: 0 <= i < |regs| ==>
      (Labels(regs)[i] == Unclassified <==> Falsy(Get(regs[i], "career")) || Get(regs[i], "career") == Str(Unclassified))
  {
    forall i | 0 <= i < |regs|
      ensures Labels(regs)[i] == Unclassified <==> Falsy(Get(regs[i], "career")) || Get(regs[i], "career") == Str(Unclassified)
    {
      var v := Get(regs[i], "career");
      if v.Num? && !Falsy(v) {
        var t := IntToString(v.n);
        assert t[0] == '-' || IsDigit(t[0]) by {
          if v.n >= 0 {
            assert t[0] in NatToString(v.n);
          } else {
            assert t[0] == "-"[0];
          }
        }
        assert Unclassified[0] == 'S';
      }
    }
  }

  // ------------------------------------------------ specification

  /** How often each label occurs, one label added at a time. */
  function Tally(ls: seq<string>): map<string, nat>
    decreases |ls|
  {
    if ls == [] then map[]
    else
      var m := Tally(ls[..|ls| - 1]);
      var l := ls[|ls| - 1];
      m[l := (if l in m then m[l] else 0) + 1]
  }

  /** The labels in the order they first occur: the order `Object.entries` lists the keys in. */
  function Order(ls: seq<string>): seq<string>
    decreases |ls|
  {
    if ls == [] then []
    else
      var o := Order(ls[..|ls| - 1]);
      if ls[|ls| - 1] in o then o else o + [ls[|ls| - 1]]
  }

  /** The records, grouped by label in their original order, one record added at a time. */
  function Groups(regs: seq<Record>, key: Record -> string): map<string, seq<Record>>
    decreases |regs|
  {
    if regs == [] then map[]
    else
      var g := Groups(regs[..|regs| - 1], key);
      var r := regs[|regs| - 1];
      var l := key(r);
      g[l := (if l in g then g[l] else []) + [r]]
  }

  /** `m[k]`, or none when the key is missing. */
  function Lookup(m: map<string, nat>, k: string): nat {
    if k in m then m[k] else 0
  }

  /** The sum of the counts listed under `keys`. */
  function SumOver(keys: seq<string>, m: map<string, nat>): nat
    decreases |keys|
  {
    if keys == [] then 0 else SumOver(keys[..|keys| - 1], m) + Lookup(m, keys[|keys| - 1])
  }

  function HasLabel(key: Record -> string, l: string): Record -> bool {
    r => key(r) == l
  }

  predicate Distinct(ks: seq<string>) {
    forall i, j :: 0 <= i < j < |ks| ==> ks[i] != ks[j]
  }

  // ------------------------------------------------ one step

  lemma LabelsStep(regs: seq<Record>, i: nat, key: Record -> string)
    requires i < |regs|
    ensures MapSeq(key, regs[..i + 1]) == MapSeq(key, regs[..i]) + [key(regs[i])]
  {
  }

  lemma TallyStep(ls: seq<string>, l: string)
    ensures Tally(ls + [l]) == Tally(ls)[l := Lookup(Tally(ls), l) + 1]
  {
    assert (ls + [l])[..|ls|] == ls;
  }

  lemma OrderStep(ls: seq<string>, l: string)
    ensures Order(ls + [l]) == if l in Order(ls) then Order(ls) else Order(ls) + [l]
  {
    assert (ls + [l])[..|ls|] == ls;
  }

  lemma GroupsStep(regs: seq<Record>, i: nat, key: Record -> string)
    requires i < |regs|
    ensures var g := Groups(regs[..i], key);
      var l := key(regs[i]);
      Groups(regs[..i + 1], key) == g[l := (if l in g then g[l] else []) + [regs[i]]]
  {
    assert regs[..i + 1][..i] == regs[..i];
  }

  // ------------------------------------------------ properties

  /** The counted labels and the listed labels are exactly the labels that occur. */
  lemma {:induction false} TallyDomain(ls: seq<string>)
    ensures forall l :: l in Tally(ls) <==> l in ls
    ensures forall l :: l in Order(ls) <==> l in ls
    decreases |ls|
  {
    if ls != [] {
      var init := ls[..|ls| - 1];
      var l := ls[|ls| - 1];
      assert ls == init + [l];
      TallyDomain(init);
      TallyStep(init, l);
      OrderStep(init, l);
    }
  }

  /** Each label is counted as often as it occurs. */
  lemma {:induction false} TallyCounts(ls: seq<string>)
    ensures forall l :: l in Tally(ls) ==> Tally(ls)[l] == multiset(ls)[l]
    decreases |ls|
  {
    if ls != [] {
      var init := ls[..|ls| - 1];
      var l := ls[|ls| - 1];
      assert ls == init + [l];
      TallyCounts(init);
      TallyDomain(init);
      TallyStep(init, l);
      assert multiset(ls) == multiset(init) + multiset{l};
    }
  }

  /** No label is listed twice. */
  lemma {:induction false} OrderDistinct(ls: seq<string>)
    ensures Distinct(Order(ls))
    decreases |ls|
  {
    if ls != [] {
      var init := ls[..|ls| - 1];
      var l := ls[|ls| - 1];
      assert ls == init + [l];
      OrderDistinct(init);
      OrderStep(init, l);
    }
  }

  /**
   * The counted labels are exactly the labels that occur, each counted as
   * often as it occurs, and they are listed once each, all of them.
   */
  lemma TallyMeaning(ls: seq<string>)
    ensures forall l :: l in Tally(ls) <==> l in ls
    ensures forall l :: l in Tally(ls) ==> Tally(ls)[l] == multiset(ls)[l]
    ensures forall l :: l in Order(ls) <==> l in ls
    ensures Distinct(Order(ls))
  {
    TallyDomain(ls);
    TallyCounts(ls);
    OrderDistinct(ls);
  }

  /** Changing a count that is not listed leaves the sum alone. */
  lemma {:induction false} SumOverOther(keys: seq<string>, m: map<string, nat>, l: string, v: nat)
    requires l !in keys
    ensures SumOver(keys, m[l := v]) == SumOver(keys, m)
    decreases |keys|
  {
    if keys != [] {
      assert forall k :: k in keys[..|keys| - 1] ==> k in keys;
      SumOverOther(keys[..|keys| - 1], m, l, v);
    }
  }

  /** Adding one to a count listed once adds one to the sum. */
  lemma {:induction false} SumOverBump(keys: seq<string>, m: map<string, nat>, l: string)
    requires l in keys && Distinct(keys)
    ensures SumOver(keys, m[l := Lookup(m, l) + 1]) == SumOver(keys, m) + 1
    decreases |keys|
  {
    var init := keys[..|keys| - 1];
    var last := keys[|keys| - 1];
    assert keys == init + [last];
    if last == l {
      assert l !in init;
      SumOverOther(init, m, l, Lookup(m, l) + 1);
    } else {
      assert l in init;
      SumOverBump(init, m, l);
    }
  }

  lemma SumOverLast(keys: seq<string>, m: map<string, nat>, l: string)
    ensures SumOver(keys + [l], m) == SumOver(keys, m) + Lookup(m, l)
  {
    assert (keys + [l])[..|keys|] == keys;
  }

  /** A label already listed adds one to its own count, and so to the sum. */
  lemma TallyTotalSeen(init: seq<string>, l: string)
    requires l in Order(init)
    ensures SumOver(Order(init + [l]), Tally(init + [l])) == SumOver(Order(init), Tally(init)) + 1
  {
    OrderDistinct(init);
    TallyStep(init, l);
    OrderStep(init, l);
    SumOverBump(Order(init), Tally(init), l);
  }

  /** A new label is listed last with a count of one. */
  lemma TallyTotalNew(init: seq<string>, l: string)
    requires l !in Order(init)
    ensures SumOver(Order(init + [l]), Tally(init + [l])) == SumOver(Order(init), Tally(init)) + 1
  {
    TallyDomain(init);
    TallyStep(init, l);
    OrderStep(init, l);
    var m := Tally(init);
    assert Lookup(m, l) == 0;
    SumOverOther(Order(init), m, l, 1);
    SumOverLast(Order(init), m[l := 1], l);
  }

  /** The counts of all listed labels add up to the number of records. */
  lemma {:induction false} TallyTotal(ls: seq<string>)
    ensures SumOver(Order(ls), Tally(ls)) == |ls|
    decreases |ls|
  {
    if ls != [] {
      var init := ls[..|ls| - 1];
      assert ls == init + [ls[|ls| - 1]];
      TallyTotal(init);
      if ls[|ls| - 1] in Order(init) {
        TallyTotalSeen(init, ls[|ls| - 1]);
      } else {
        TallyTotalNew(init, ls[|ls| - 1]);
      }
    }
  }

  /** A group exists exactly for each label that occurs. */
  lemma {:induction false} GroupsDomain(regs: seq<Record>, key: Record -> string)
    ensures forall l :: l in Groups(regs, key) <==> l in MapSeq(key, regs)
    decreases |regs|
  {
    if regs != [] {
      var n := |regs| - 1;
      assert regs[..n + 1] == regs;
      GroupsDomain(regs[..n], key);
      GroupsStep(regs, n, key);
      LabelsStep(regs, n, key);
    }
  }

  /** The group of a label holds the records with that label, in their original order. */
  lemma {:induction false} GroupsContents(regs: seq<Record>, key: Record -> string)
    ensures forall l :: l in Groups(regs, key) ==> Groups(regs, key)[l] == Where(regs, HasLabel(key, l))
    decreases |regs|
  {
    if regs != [] {
      var n := |regs| - 1;
      var init := regs[..n];
      assert regs[..n + 1] == regs;
      GroupsContents(init, key);
      GroupsDomain(init, key);
      GroupsStep(regs, n, key);
      assert regs == init + [regs[n]];
      forall l | l in Groups(regs, key) ensures Groups(regs, key)[l] == Where(regs, HasLabel(key, l)) {
        WhereAppend(init, [regs[n]], HasLabel(key, l));
        if l !in Groups(init, key) {
          forall k | 0 <= k < |init| ensures !HasLabel(key, l)(init[k]) {
            assert MapSeq(key, init)[k] in MapSeq(key, init);
          }
          WhereNone(init, HasLabel(key, l));
        }
      }
    }
  }

  lemma {:induction false} WhereNone(xs: seq<Record>, p: Record -> bool)
    requires forall i :: 0 <= i < |xs| ==> !p(xs[i])
    ensures Where(xs, p) == []
  {
    if xs != [] {
      WhereNone(xs[1..], p);
    }
  }

  /** The group of a label has as many records as the label's count. */
  lemma {:induction false} GroupsSizes(regs: seq<Record>, key: Record -> string)
    ensures forall l :: l in Groups(regs, key) ==> l in Tally(MapSeq(key, regs)) && |Groups(regs, key)[l]| == Tally(MapSeq(key, regs))[l]
    decreases |regs|
  {
    if regs != [] {
      var n := |regs| - 1;
      var init := regs[..n];
      assert regs[..n + 1] == regs;
      GroupsSizes(init, key);
      GroupsDomain(init, key);
      TallyDomain(MapSeq(key, init));
      GroupsStep(regs, n, key);
      LabelsStep(regs, n, key);
      TallyStep(MapSeq(key, init), key(regs[n]));
    }
  }

  /**
   * A group exists exactly for each label that occurs; the group of a label
   * holds the records with that label, in their original order, and has as
   * many records as the label's count.
   */
  lemma GroupsMeaning(regs: seq<Record>)
    ensures forall l :: l in Groups(regs, Label) <==> l in Labels(regs)
    ensures forall l :: l in Groups(regs, Label) ==> Groups(regs, Label)[l] == Where(regs, HasLabel(Label, l))
    ensures forall l :: l in Groups(regs, Label) ==> l in Tally(Labels(regs)) && |Groups(regs, Label)[l]| == Tally(Labels(regs))[l]
  {
    GroupsDomain(regs, Label);
    GroupsContents(regs, Label);
    GroupsSizes(regs, Label);
  }

  /** Every record lands in the group of its label and in no other. */
  lemma GroupsPartition(regs: seq<Record>)
    ensures forall i :: 0 <= i < |regs| ==> Label(regs[i]) in Groups(regs, Label) && regs[i] in Groups(regs, Label)[Label(regs[i])]
    ensures forall l, r :: l in Groups(regs, Label) && r in Groups(regs, Label)[l] ==> Label(r) == l
  {
    GroupsMeaning(regs);
    forall i | 0 <= i < |regs| ensures Label(regs[i]) in Groups(regs, Label) && regs[i] in Groups(regs, Label)[Label(regs[i])] {
      assert Labels(regs)[i] == Label(regs[i]);
      WhereMembership(regs, HasLabel(Label, Label(regs[i])), regs[i]);
    }
    forall l, r | l in Groups(regs, Label) && r in Groups(regs, Label)[l] ensures Label(r) == l {
      WhereMembership(regs, HasLabel(Label, l), r);
    }
  }

  // ------------------------------------------------ the loops

  /** What one more record does to the counts and to the key order. */
  lemma CountStep(regs: seq<Record>, i: nat, key: Record -> string)
    requires i < |regs|
    ensures var ls := MapSeq(key, regs[..i]);
      var l := key(regs[i]);
      var m := Tally(ls);
      Order(MapSeq(key, regs[..i + 1])) == (if l in m then Order(ls) else Order(ls) + [l]) &&
      Tally(MapSeq(key, regs[..i + 1])) == m[l := (if l in m then m[l] else 0) + 1]
  {
    var ls := MapSeq(key, regs[..i]);
    LabelsStep(regs, i, key);
    TallyStep(ls, key(regs[i]));
    OrderStep(ls, key(regs[i]));
    TallyDomain(ls);
  }

  /** What one more record does to the groups and to the key order. */
  lemma GroupStep(regs: seq<Record>, i: nat, key: Record -> string)
    requires i < |regs|
    ensures var ls := MapSeq(key, regs[..i]);
      var l := key(regs[i]);
      var g := Groups(regs[..i], key);
      Order(MapSeq(key, regs[..i + 1])) == (if l in g then Order(ls) else Order(ls) + [l]) &&
      Groups(regs[..i + 1], key) == g[l := (if l in g then g[l] else []) + [regs[i]]]
  {
    var ls := MapSeq(key, regs[..i]);
    LabelsStep(regs, i, key);
    OrderStep(ls, key(regs[i]));
    GroupsStep(regs, i, key);
    GroupsDomain(regs[..i], key);
    TallyDomain(ls);
  }

  /**
   * `conteoCarreras[carrera] = (conteoCarreras[carrera] || 0) + 1` over all
   * records; `keys` is the key order `Object.entries` lists.
   */
  method CountCareers(registros: seq<Record>) returns (keys: seq<string>, conteo: map<string, nat>)
    ensures keys == Order(Labels(registros)) && conteo == Tally(Labels(registros))
  {
    keys := [];
    conteo := map[];
    var i := 0;
    while i < |registros|
      invariant 0 <= i <= |registros|
      invariant keys == Order(Labels(registros[..i])) && conteo == Tally(Labels(registros[..i]))
    {
      var carrera := Label(registros[i]);
      CountStep(registros, i, Label);
      if carrera !in conteo {
        keys := keys + [carrera];
      }
      var cantidad := if carrera in conteo then conteo[carrera] else 0;
      conteo := conteo[carrera := cantidad + 1];
      i := i + 1;
    }
    assert registros[..i] == registros;
  }

  /** `agrupados[carrera].push(reg)` over all records, creating each group on its first record. */
  method GroupCareers(registros: seq<Record>) returns (keys: seq<string>, agrupados: map<string, seq<Record>>)
    ensures keys == Order(Labels(registros)) && agrupados == Groups(registros, Label)
  {
    keys := [];
    agrupados := map[];
    var i := 0;
    while i < |registros|
      invariant 0 <= i <= |registros|
      invariant keys == Order(Labels(registros[..i])) && agrupados == Groups(registros[..i], Label)
    {
      var reg := registros[i];
      var carrera := Label(reg);
      GroupStep(registros, i, Label);
      if carrera !in agrupados {
        keys := keys + [carrera];
      }
      var filas := if carrera in agrupados then agrupados[carrera] else [];
      agrupados := agrupados[carrera := filas + [reg]];
      i := i + 1;
    }
    assert registros[..i] == registros;
  }

  // ------------------------------------------------ group sections

  /** `${carrera} (${filas.length} registros)` */
  function Summary(carrera: string, filas: seq<Record>): string {
    carrera + " (" + NatToString(|filas|) + " registros)"
  }

  /** One collapsible section per group, in key order: its summary line and its processed table. */
  function Sections(regs: seq<Record>): (r: seq<(string, string)>)
    ensures |r| == |Order(Labels(regs))|
  {
    var g := Groups(regs, Label);
    var keys := Order(Labels(regs));
    // every listed career is a key of the groups
    TallyDomain(Labels(regs));
    GroupsDomain(regs, Label);
    seq(|keys|, i requires 0 <= i < |keys| => (Summary(keys[i], g[keys[i]]), GenerarTablaHTML(Items(g[keys[i]]))))
  }

  /**
   * There is one section per career that occurs, once each; each section's
   * summary gives the career and its count, and its table shows exactly that
   * career's records in their original order.
   */
  lemma SectionsMeaning(regs: seq<Record>)
    ensures var keys := Order(Labels(regs));
      forall i :: 0 <= i < |keys| ==>
        keys[i] in Tally(Labels(regs)) &&
        Sections(regs)[i].0 == keys[i] + " (" + NatToString(Tally(Labels(regs))[keys[i]]) + " registros)" &&
        Sections(regs)[i].1 == GenerarTablaHTML(Items(Where(regs, HasLabel(Label, keys[i]))))
  {
    TallyDomain(Labels(regs));
    GroupsDomain(regs, Label);
    GroupsContents(regs, Label);
    GroupsSizes(regs, Label);
  }

  // ------------------------------------------------ renderTabla

  /** `<td>${fila[h]}</td>` */
  function CellOf(fila: Record): string -> string {
    h => "<td>" + ToStr(Get(fila, h)) + "</td>"
  }

  /** `"<tr>" + headers.map(h => `<td>${fila[h]}</td>`).join('') + "</tr>"` */
  function Fila(headers: seq<string>, fila: Record): string {
    "<tr>" + Join(MapSeq(CellOf(fila), headers), "") + "</tr>"
  }

  function FilaHtml(headers: seq<string>): Record -> string {
    fila => Fila(headers, fila)
  }

  /** The rows the loop appends, one record after the other. */
  function BodyRows(datos: seq<Record>, headers: seq<string>): string
    decreases |datos|
  {
    if datos == [] then [] else BodyRows(datos[..|datos| - 1], headers) + Fila(headers, datos[|datos| - 1])
  }

  lemma BodyRowsStep(datos: seq<Record>, headers: seq<string>, i: nat)
    requires i < |datos|
    ensures BodyRows(datos[..i + 1], headers) == BodyRows(datos[..i], headers) + Fila(headers, datos[i])
  {
    assert datos[..i + 1][..i] == datos[..i];
  }

  function HeadHtml(headers: seq<string>): string {
    "<thead><tr>" + Join(MapSeq(HeaderHtml, headers), "") + "</tr></thead>"
  }

  const NoRecords: string := "<tr><td>No hay registros</td></tr>"

  /** What `renderTabla` writes into the table. */
  function Tabla(datos: seq<Record>): string {
    if |datos| == 0 then NoRecords
    else
      var headers := Keys(datos[0]);
      HeadHtml(headers) + "<tbody>" + BodyRows(datos, headers) + "</tbody>"
  }

  /** `renderTabla(idTabla, datos)`: the header row, then the body built row by row. */
  method RenderTabla(datos: seq<Record>) returns (html: string)
    ensures html == Tabla(datos)
  {
    if |datos| == 0 {
      html := NoRecords;
      return;
    }
    var headers := Keys(datos[0]);
    var thead := HeadHtml(headers);
    var tbody := "<tbody>";
    var i := 0;
    while i < |datos|
      invariant 0 <= i <= |datos|
      invariant tbody == "<tbody>" + BodyRows(datos[..i], headers)
    {
      BodyRowsStep(datos, headers, i);
      ConcatAssoc("<tbody>", BodyRows(datos[..i], headers), Fila(headers, datos[i]));
      tbody := tbody + Fila(headers, datos[i]);
      i := i + 1;
    }
    assert datos[..i] == datos;
    tbody := tbody + "</tbody>";
    html := thead + tbody;
    ConcatAssoc(thead, "<tbody>" + BodyRows(datos, headers), "</tbody>");
    ConcatAssoc(thead, "<tbody>", BodyRows(datos, headers));
  }

  /** Joining one more piece appends it. */
  lemma {:induction false} JoinAppend(parts: seq<string>, p: string)
    ensures Join(parts + [p], "") == Join(parts, "") + p
    decreases |parts|
  {
    if parts != [] {
      assert (parts + [p])[1..] == parts[1..] + [p];
      JoinAppend(parts[1..], p);
    }
  }

  /**
   * The body is the rows of the records, one per record in their order,
   * joined; each row has one cell per header, showing the record's value
   * under that header (`undefined` when it has none).
   */
  lemma {:induction false} BodyRowsMeaning(datos: seq<Record>, headers: seq<string>)
    ensures BodyRows(datos, headers) == Join(MapSeq(FilaHtml(headers), datos), "")
    decreases |datos|
  {
    if datos != [] {
      var init := datos[..|datos| - 1];
      var last := datos[|datos| - 1];
      BodyRowsMeaning(init, headers);
      var rows := MapSeq(FilaHtml(headers), init);
      MapSeqSnoc(FilaHtml(headers), datos);
      JoinAppend(rows, Fila(headers, last));
    }
  }

  /**
   * No records give the single `No hay registros` row. Otherwise the headers
   * are the keys of the first record, and the body has one row per record,
   * in order, with one cell per header.
   */
  lemma TablaMeaning(datos: seq<Record>)
    ensures |datos| == 0 ==> Tabla(datos) == NoRecords
    ensures |datos| > 0 ==>
      var headers := Keys(datos[0]);
      var rows := MapSeq(FilaHtml(headers), datos);
      Tabla(datos) == HeadHtml(headers) + "<tbody>" + Join(rows, "") + "</tbody>" &&
      |rows| == |datos| &&
      forall i :: 0 <= i < |datos| ==>
        rows[i] == "<tr>" + Join(MapSeq(CellOf(datos[i]), headers), "") + "</tr>" &&
        |MapSeq(CellOf(datos[i]), headers)| == |headers| &&
        forall j :: 0 <= j < |headers| ==> MapSeq(CellOf(datos[i]), headers)[j] == "<td>" + ToStr(Get(datos[i], headers[j])) + "</td>"
  {
    if |datos| > 0 {
      BodyRowsMeaning(datos, Keys(datos[0]));
    }
  }

  /**
   * The side tables for rows outside engineering and rows without a career:
   * `renderTabla` when the answer holds records, the given message row otherwise.
   */
  method RenderSideTable(d: Data, message: string) returns (html: string)
    ensures d.Items? && |d.rows| > 0 ==> html == Tabla(d.rows)
    ensures !(d.Items? && |d.rows| > 0) ==> html == "<tr><td>" + message + "</td></tr>"
  {
    if d.Items? && |d.rows| > 0 {
      html := RenderTabla(d.rows);
    } else {
      html := "<tr><td>" + message + "</td></tr>";
    }
  }
}
