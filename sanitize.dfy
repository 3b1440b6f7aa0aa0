/**
 * Character sanitisation of text columns (backend/mineria.py:81-87):
 * `re.sub(r'[^\w\s.,:/()-]', '', texto)` on strings, other values untouched.
 */
module Sanitize {
  import opened Wrappers
  import opened Text
  import Careers
  import Salary

  /** The characters the pattern keeps: word characters, whitespace and `. , : / ( ) -`. */
  predicate Allowed(c: char) {
    IsWordChar(c) || IsSpace(c) || c in ".,:/()-"
  }

  /** `limpiar_y_contar` on a string. */
  function Clean(s: string): (r: string) {
    Filter(s, Allowed)
  }

  /** `limpiar_y_contar` on a cell: a missing value (NaN) is returned as it is. */
  function CleanCell(cell: Option<string>): (r: Option<string>)
    ensures r.None? <==> cell.None?
  {
    match cell
    case Some(s) => Some(Clean(s))
    case None => None
  }

  /**
   * The result keeps only allowed characters, never grows, is obtained from
   * the input by deletions only, and cleaning twice is cleaning once.
   */
  lemma CleanProperties(s: string)
    ensures forall c :: c in Clean(s) ==> Allowed(c) && c in s
    ensures |Clean(s)| <= |s|
    ensures IsSubsequence(Clean(s), s)
    ensures Clean(Clean(s)) == Clean(s)
  {
    FilterIsSubsequence(s, Allowed);
    FilterIdempotent(s, Allowed);
  }

  /** Exactly the strings made of allowed characters are left alone. */
  lemma CleanIdentity(s: string)
    ensures Clean(s) == s <==> forall c :: c in s ==> Allowed(c)
  {
    if forall c :: c in s ==> Allowed(c) {
      FilterAllKept(s, Allowed);
    }
  }

  /** A character the pattern deletes is gone from the result, and one it keeps survives. */
  lemma CleanDeletesExactly(s: string, c: char)
    ensures c in Clean(s) <==> c in s && Allowed(c)
    decreases |s|
  {
    if s != [] {
      CleanDeletesExactly(s[1..], c);
      assert s == [s[0]] + s[1..];
    }
  }

  /** Cleaning does not alter a stored salary, which consists of digits, dots and commas. */
  lemma CleanKeepsSalary(cell: Option<string>)
    ensures CleanCell(Salary.StoredSalary(cell)) == Salary.StoredSalary(cell)
  {
    Salary.StoredSalaryMeaning(cell);
    if Salary.StoredSalary(cell).Some? {
      CleanIdentity(Salary.StoredSalary(cell).value);
    }
  }

  /** Cleaning does not alter a career name, so every cleaned career is still one of the six. */
  lemma CleanKeepsCareerNames(k: nat)
    requires k < Careers.CareerCount
    ensures Clean(Careers.CareerName(k)) == Careers.CareerName(k)
  {
    var name := Careers.CareerName(k);
    forall i | 0 <= i < |name| ensures Allowed(name[i]) {
      assert name[i] == ' ' || IsWordChar(name[i]);
    }
    CleanIdentity(name);
  }
}
