/**
 * Salary-text extraction of the mining step (backend/mineria.py:17-24).
 *
 * The `Salario` cell is cleaned of parenthesised remarks and surrounding
 * whitespace, then the `[\d.,]+` group of the first match of
 * `(\D+)?([\d.,]+)` becomes the stored salary (a string, or NaN when nothing
 * matches). The numeric conversion of lines 19-20 is dropped again at line 23.
 */
module Salary {
  import opened Wrappers
  import opened Text

  // ------------------------------------------------ re.sub(r"\(.*?\)", "", s)

  /** `t` starts with `.*?\)`: a `)` comes before any newline (`.` does not match `\n`). */
  predicate ClosesBeforeNewline(t: string)
    decreases |t|
  {
    |t| > 0 && t[0] != '\n' && (t[0] == ')' || ClosesBeforeNewline(t[1..]))
  }

  /** Position of the `)` that ends the shortest such match. */
  function CloseOffset(t: string): (k: nat)
    requires ClosesBeforeNewline(t)
    ensures k < |t| && t[k] == ')'
    ensures forall j :: 0 <= j < k ==> t[j] != ')' && t[j] != '\n'
  {
    if t[0] == ')' then 0 else 1 + CloseOffset(t[1..])
  }

  /** Deletes, left to right, every `(` ... `)` group that does not span a line break. */
  function RemoveParenGroups(s: string): (r: string)
    ensures |r| <= |s|
    decreases |s|
  {
    if s == [] then []
    else if s[0] == '(' && ClosesBeforeNewline(s[1..]) then RemoveParenGroups(s[CloseOffset(s[1..]) + 2..])
    else [s[0]] + RemoveParenGroups(s[1..])
  }

  /** No `(` of `r` is followed by a `)` on the same line: nothing is left for the pattern to remove. */
  predicate NoParenGroup(r: string) {
    forall i :: 0 <= i < |r| && r[i] == '(' ==> !ClosesBeforeNewline(r[i + 1..])
  }

  lemma {:induction false} NoCloseKept(t: string)
    requires !ClosesBeforeNewline(t)
    ensures !ClosesBeforeNewline(RemoveParenGroups(t))
    decreases |t|
  {
    if t != [] && t[0] != '\n' {
      NoCloseKept(t[1..]);
      var r := RemoveParenGroups(t);
      assert r == [t[0]] + RemoveParenGroups(t[1..]);
      assert r[1..] == RemoveParenGroups(t[1..]);
    }
  }

  /** Every removable group is removed. */
  lemma {:induction false} RemoveParenGroupsComplete(s: string)
    ensures NoParenGroup(RemoveParenGroups(s))
    decreases |s|
  {
    if s != [] {
      if s[0] == '(' && ClosesBeforeNewline(s[1..]) {
        RemoveParenGroupsComplete(s[CloseOffset(s[1..]) + 2..]);
      } else {
        var u := RemoveParenGroups(s[1..]);
        RemoveParenGroupsComplete(s[1..]);
        var r := [s[0]] + u;
        if s[0] == '(' {
          NoCloseKept(s[1..]);
        }
        forall i | 0 <= i < |r| && r[i] == '('
          ensures !ClosesBeforeNewline(r[i + 1..])
        {
          if i > 0 {
            assert r[i + 1..] == u[i..];
            assert u[i - 1] == '(';
          } else {
            assert r[1..] == u;
          }
        }
      }
    }
  }

  /** Text without a removable group is left alone. */
  lemma {:induction false} RemoveParenGroupsFixpoint(s: string)
    requires NoParenGroup(s)
    ensures RemoveParenGroups(s) == s
    decreases |s|
  {
    if s != [] {
      assert s[0] == '(' ==> !ClosesBeforeNewline(s[1..]);
      forall i | 0 <= i < |s[1..]| && s[1..][i] == '('
        ensures !ClosesBeforeNewline(s[1..][i + 1..])
      {
        assert s[1..][i + 1..] == s[i + 2..];
      }
      RemoveParenGroupsFixpoint(s[1..]);
    }
  }

  /** Applying the substitution a second time changes nothing. */
  lemma RemoveParenGroupsIdempotent(s: string)
    ensures RemoveParenGroups(RemoveParenGroups(s)) == RemoveParenGroups(s)
  {
    RemoveParenGroupsComplete(s);
    RemoveParenGroupsFixpoint(RemoveParenGroups(s));
  }

  // ------------------------------------------------ str.extract(r'(\D+)?([\d.,]+)')

  /** The class `[\d.,]`. */
  predicate IsAmountChar(c: char) { IsDigit(c) || c == '.' || c == ',' }

  predicate IsSeparator(c: char) { c == '.' || c == ',' }

  /** Length of the run of `[\d.,]` characters starting at `p`. */
  function AmountRun(s: string, p: nat): (n: nat)
    requires p <= |s|
    ensures p + n <= |s|
    ensures forall j :: p <= j < p + n ==> IsAmountChar(s[j])
    ensures p + n < |s| ==> !IsAmountChar(s[p + n])
    decreases |s| - p
  {
    if p < |s| && IsAmountChar(s[p]) then 1 + AmountRun(s, p + 1) else 0
  }

  /** Length of the run of `\D` characters starting at `p`. */
  function NonDigitRun(s: string, p: nat): (n: nat)
    requires p <= |s|
    ensures p + n <= |s|
    ensures forall j :: p <= j < p + n ==> !IsDigit(s[j])
    ensures p + n < |s| ==> IsDigit(s[p + n])
    decreases |s| - p
  {
    if p < |s| && !IsDigit(s[p]) then 1 + NonDigitRun(s, p + 1) else 0
  }

  /** The greedy group `([\d.,]+)` tried at `p`; nothing follows it in the pattern. */
  function AmountAt(s: string, p: nat): Option<string>
    requires p <= |s|
  {
    if p < |s| && IsAmountChar(s[p]) then Some(s[p..p + AmountRun(s, p)]) else None
  }

  /**
   * Backtracking over the optional greedy `(\D+)?` at `start`: the group is
   * tried with `m`, `m - 1`, ..., 1 characters, and finally skipped (`m == 0`).
   */
  function TryPrefix(s: string, start: nat, m: nat): Option<string>
    requires start + m <= |s|
    decreases m
  {
    if m == 0 then AmountAt(s, start)
    else
      match AmountAt(s, start + m)
      case Some(g) => Some(g)
      case None => TryPrefix(s, start, m - 1)
  }

  /** The pattern anchored at `start`. */
  function MatchAt(s: string, start: nat): Option<string>
    requires start <= |s|
  {
    TryPrefix(s, start, NonDigitRun(s, start))
  }

  /** `re.search`: the leftmost start position at which the pattern matches. */
  function Search(s: string, start: nat): Option<string>
    requires start <= |s|
    decreases |s| - start
  {
    match MatchAt(s, start)
    case Some(g) => Some(g)
    case None => if start == |s| then None else Search(s, start + 1)
  }

  // ------------------------------------------------ closed form of the search

  function FirstDigit(s: string): (r: Option<nat>)
    ensures r.Some? ==> r.value < |s| && IsDigit(s[r.value])
    ensures r.Some? ==> forall j :: 0 <= j < r.value ==> !IsDigit(s[j])
    ensures r.None? ==> forall j :: 0 <= j < |s| ==> !IsDigit(s[j])
  {
    if s == [] then None
    else if IsDigit(s[0]) then Some(0)
    else match FirstDigit(s[1..]) case Some(k) => Some(k + 1) case None => None
  }

  /** The largest index in `[lo, hi)` holding `.` or `,`. */
  function LastSeparatorIn(s: string, lo: nat, hi: nat): (r: Option<nat>)
    requires hi <= |s|
    ensures r.Some? ==> lo <= r.value < hi && IsSeparator(s[r.value])
    ensures r.Some? ==> forall j :: r.value < j < hi ==> !IsSeparator(s[j])
    ensures r.None? ==> forall j :: lo <= j < hi ==> !IsSeparator(s[j])
    decreases hi
  {
    if hi <= lo then None
    else if IsSeparator(s[hi - 1]) then Some(hi - 1)
    else LastSeparatorIn(s, lo, hi - 1)
  }

  /**
   * The matched amount: the `[\d.,]` run that starts at the first digit; in a
   * text without digits, the last `.` or `,` on its own; nothing otherwise.
   */
  function ExtractAmount(s: string): (r: Option<string>)
    ensures r.Some? ==> |r.value| > 0 && forall c :: c in r.value ==> IsAmountChar(c)
    ensures r.None? <==> forall c :: c in s ==> !IsAmountChar(c)
  {
    match FirstDigit(s)
    case Some(k) => Some(s[k..k + AmountRun(s, k)])
    case None =>
      match LastSeparatorIn(s, 0, |s|)
      case Some(k) =>
        assert s[k] in s;
        Some([s[k]])
      case None => None
  }

  lemma {:induction false} TryPrefixWithoutDigits(s: string, start: nat, m: nat)
    requires start + m <= |s|
    requires forall j :: 0 <= j < |s| ==> !IsDigit(s[j])
    ensures TryPrefix(s, start, m) ==
      match LastSeparatorIn(s, start, if start + m < |s| then start + m + 1 else |s|)
      case Some(p) => AmountAt(s, p)
      case None => None
    decreases m
  {
    if m > 0 {
      TryPrefixWithoutDigits(s, start, m - 1);
    }
  }

  lemma {:induction false} SearchWithoutAmount(s: string, start: nat)
    requires start <= |s|
    requires forall j :: 0 <= j < |s| ==> !IsAmountChar(s[j])
    ensures Search(s, start) == None
    decreases |s| - start
  {
    TryPrefixWithoutDigits(s, start, NonDigitRun(s, start));
    if start < |s| {
      SearchWithoutAmount(s, start + 1);
    }
  }

  /** The closed form is what the backtracking regular-expression search returns. */
  lemma ExtractAmountIsRegexSearch(s: string)
    ensures Search(s, 0) == ExtractAmount(s)
  {
    match FirstDigit(s)
    case Some(k) =>
      assert NonDigitRun(s, 0) == k;
    case None =>
      TryPrefixWithoutDigits(s, 0, NonDigitRun(s, 0));
      match LastSeparatorIn(s, 0, |s|)
      case Some(p) =>
        assert AmountRun(s, p + 1) == 0;
        assert s[p..p + 1] == [s[p]];
      case None =>
        SearchWithoutAmount(s, 0);
  }

  // ------------------------------------------------ the stored salary

  /** mineria.py:17-24: `fillna('')`, remove remarks, strip, keep the extracted group. */
  function StoredSalary(cell: Option<string>): Option<string> {
    ExtractAmount(Strip(RemoveParenGroups(cell.GetOr(""))))
  }

  /**
   * The stored salary is the regex group of the cleaned text; it is missing
   * exactly when the cleaned text has no digit, dot or comma, and it is
   * always missing for an empty or missing cell.
   */
  lemma StoredSalaryMeaning(cell: Option<string>)
    ensures StoredSalary(cell) == Search(Strip(RemoveParenGroups(cell.GetOr(""))), 0)
    ensures StoredSalary(cell).None? <==>
      forall c :: c in Strip(RemoveParenGroups(cell.GetOr(""))) ==> !IsAmountChar(c)
    ensures cell.None? || cell == Some("") ==> StoredSalary(cell).None?
    ensures StoredSalary(cell).Some? ==>
      |StoredSalary(cell).value| > 0 && forall c :: c in StoredSalary(cell).value ==> IsAmountChar(c)
  {
    ExtractAmountIsRegexSearch(Strip(RemoveParenGroups(cell.GetOr(""))));
  }
}
