/**
 * Career classification by keyword scoring (backend/mineria.py:63-78).
 *
 * Each of the six careers scores one point per keyword of its list that
 * occurs as a substring of the row's combined text; the best score wins,
 * ties go to the career listed first, and a text with no hit at all is
 * "No clasificado".
 */
module Careers {
  import opened Wrappers
  import opened Text

  const CareerCount := 6

  /** The dictionary keys, in insertion order. */
  function CareerName(k: nat): string
    requires k < CareerCount
  {
    match k
    case 0 => "Ingeniería de Sistemas"
    case 1 => "Ingeniería de Minas"
    case 2 => "Ingeniería Industrial"
    case 3 => "Ingeniería Civil"
    case 4 => "Ingeniería Ambiental"
    case _ => "Ingeniería Agrónoma"
  }

  /** The keyword list of each career. */
  function CareerKeywords(k: nat): seq<string>
    requires k < CareerCount
  {
    match k
    case 0 => ["ingeniería de sistemas", "ing. sistemas", "sistemas", "informática", "python", "java", "sql"]
    case 1 => ["ingeniería de minas", "minería", "voladura", "mina", "unidad minera"]
    case 2 => ["ingeniería industrial", "procesos", "gestión de calidad", "producción", "logística"]
    case 3 => ["ingeniería civil", "autocad", "estructuras", "obra", "planos"]
    case 4 => ["ingeniería ambiental", "medio ambiente", "impacto ambiental", "residuos"]
    case _ => ["ingeniería agrónoma", "cultivos", "agronomía", "agroindustria", "agrícola"]
  }

  /** The label of rows no career claims. */
  const Unclassified := "No clasificado"

  /** `sum(1 for kw in kws if kw in texto_total)` */
  function Score(text: string, kws: seq<string>): (n: nat)
    ensures n <= |kws|
  {
    if kws == [] then 0 else (if Contains(text, kws[0]) then 1 else 0) + Score(text, kws[1..])
  }

  /** A score is positive exactly when some keyword of the list occurs in the text. */
  lemma {:induction false} ScorePositive(text: string, kws: seq<string>)
    ensures Score(text, kws) > 0 <==> exists i :: 0 <= i < |kws| && Contains(text, kws[i])
  {
    if kws != [] {
      ScorePositive(text, kws[1..]);
      if exists i :: 0 <= i < |kws[1..]| && Contains(text, kws[1..][i]) {
        var i :| 0 <= i < |kws[1..]| && Contains(text, kws[1..][i]);
        assert Contains(text, kws[i + 1]);
      }
      if exists i :: 0 <= i < |kws| && Contains(text, kws[i]) {
        var i :| 0 <= i < |kws| && Contains(text, kws[i]);
        if i > 0 {
          assert Contains(text, kws[1..][i - 1]);
        }
      }
    }
  }

  /** `puntajes`, in dictionary order. */
  function Scores(text: string): (s: seq<nat>)
    ensures |s| == CareerCount
  {
    seq(CareerCount, k requires 0 <= k < CareerCount => Score(text, CareerKeywords(k)))
  }

  /** `max(d, key=d.get)`: the first position holding the largest value. */
  function FirstMax(s: seq<nat>): (i: nat)
    requires |s| > 0
    ensures i < |s|
    ensures forall j :: 0 <= j < |s| ==> s[j] <= s[i]
    ensures forall j :: 0 <= j < i ==> s[j] < s[i]
  {
    if |s| == 1 then 0
    else
      var m := FirstMax(s[..|s| - 1]);
      if s[|s| - 1] > s[m] then |s| - 1 else m
  }

  /** The winning career's position, or `None` when every score is zero. */
  function Classify(text: string): Option<nat> {
    var s := Scores(text);
    if exists k :: 0 <= k < CareerCount && s[k] > 0 then Some(FirstMax(s)) else None
  }

  /** `detectar_carrera_por_campos`: the winning career's name, or the sentinel. */
  function DetectCareer(text: string): string {
    match Classify(text)
    case Some(k) => CareerName(k)
    case None => Unclassified
  }

  /**
   * The classifier's promise: no career scores more than the winner, every
   * career listed before it scores strictly less, and the winner has at least
   * one hit.
   */
  lemma ClassifyWinner(text: string)
    requires Classify(text).Some?
    ensures var c := Classify(text).value;
      c < CareerCount
      && Scores(text)[c] > 0
      && (forall k :: 0 <= k < CareerCount ==> Scores(text)[k] <= Scores(text)[c])
      && (forall k :: 0 <= k < c ==> Scores(text)[k] < Scores(text)[c])
  {
    var s := Scores(text);
    var k :| 0 <= k < CareerCount && s[k] > 0;
    assert s[FirstMax(s)] >= s[k];
  }

  /** There is no winner exactly when no keyword of any career occurs in the text. */
  lemma ClassifyNone(text: string)
    ensures Classify(text).None? <==>
      forall k, i :: 0 <= k < CareerCount && 0 <= i < |CareerKeywords(k)| ==> !Contains(text, CareerKeywords(k)[i])
  {
    var s := Scores(text);
    forall k | 0 <= k < CareerCount
      ensures s[k] > 0 <==> exists i :: 0 <= i < |CareerKeywords(k)| && Contains(text, CareerKeywords(k)[i])
    {
      ScorePositive(text, CareerKeywords(k));
    }
  }

  /** The sentinel is no career's name, so filtering it out keeps exactly the classified rows. */
  lemma SentinelIsNoCareer(text: string)
    ensures DetectCareer(text) != Unclassified <==> Classify(text).Some?
    ensures Classify(text).Some? ==> DetectCareer(text) == CareerName(Classify(text).value)
  {
  }

  /** The six names are pairwise distinct. */
  lemma CareerNamesDistinct()
    ensures forall i, j :: 0 <= i < j < CareerCount ==> CareerName(i) != CareerName(j)
  {
  }

  /** A text naming a programming language of the systems list is always classified. */
  lemma SystemsKeywordClassifies(text: string)
    requires Contains(text, "python") || Contains(text, "java") || Contains(text, "sql")
    ensures Classify(text).Some?
  {
    ClassifyNone(text);
    var i := if Contains(text, "python") then 4 else if Contains(text, "java") then 5 else 6;
    assert Contains(text, CareerKeywords(0)[i]);
  }
}
