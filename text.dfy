/**
 * Character classes and string operations shared by the back end (Python `str`
 * methods and `re`) and the front end (JavaScript `String` methods).
 *
 * Unicode-wide classes (`\w`, `str.lower`) are approximated by their ASCII and
 * Latin-1 part, which covers the Spanish text the system handles.
 */
module Text {

  // ---------------------------------------------------------------- characters

  predicate IsDigit(c: char) { '0' <= c <= '9' }

  predicate IsAsciiLetter(c: char) { 'a' <= c <= 'z' || 'A' <= c <= 'Z' }

  /** JavaScript `\w`: `[A-Za-z0-9_]`. */
  predicate IsAsciiWordChar(c: char) { IsAsciiLetter(c) || IsDigit(c) || c == '_' }

  /** The letters of the Latin-1 supplement (accented vowels, ñ, ç, ...). */
  predicate IsLatin1Letter(c: char) {
    c == 'ª' || c == 'µ' || c == 'º' || ('À' <= c <= 'ÿ' && c != '×' && c != '÷')
  }

  /** The Latin-1 characters Python counts as numeric: the superscripts `¹²³` and the fractions `¼½¾`. */
  predicate IsLatin1Numeric(c: char) {
    c == '¹' || c == '²' || c == '³' || ('¼' <= c <= '¾')
  }

  /**
   * Python's Unicode `\w` (the characters `str.isalnum()` accepts, and `_`)
   * on ASCII and Latin-1; characters above U+00FF count as not in `\w`.
   */
  predicate IsWordChar(c: char) { IsAsciiWordChar(c) || IsLatin1Letter(c) || IsLatin1Numeric(c) }

  /** Python's `str.isspace()`: the characters `str.strip()` and `\s` treat as whitespace. */
  predicate IsSpace(c: char) {
    ('\t' <= c <= '\r') || ('\U{1c}' <= c <= ' ') || c == '\U{85}' || c == '\U{a0}' || c == '\U{1680}'
    || ('\U{2000}' <= c <= '\U{200a}') || c == '\U{2028}' || c == '\U{2029}' || c == '\U{202f}'
    || c == '\U{205f}' || c == '\U{3000}'
  }

  /** JavaScript's `\s`: Python's set without the separators U+001C-U+001F and U+0085, plus U+FEFF. */
  predicate IsJsSpace(c: char) {
    ('\t' <= c <= '\r') || c == ' ' || c == '\U{a0}' || c == '\U{1680}'
    || ('\U{2000}' <= c <= '\U{200a}') || c == '\U{2028}' || c == '\U{2029}' || c == '\U{202f}'
    || c == '\U{205f}' || c == '\U{3000}' || c == '\U{feff}'
  }

  predicate IsUpperLetter(c: char) { 'A' <= c <= 'Z' || ('À' <= c <= 'Þ' && c != '×') }

  predicate IsLowerLetter(c: char) { 'a' <= c <= 'z' || ('à' <= c <= 'þ' && c != '÷') }

  /** Lower-casing of one character (ASCII and Latin-1 letters). */
  function Lower(c: char): (r: char)
    ensures !IsUpperLetter(r)
    ensures IsUpperLetter(c) <==> r != c
  {
    if IsUpperLetter(c) then (c as int + 32) as char else c
  }

  /** Upper-casing of one character (ASCII and Latin-1 letters). */
  function Upper(c: char): (r: char)
    ensures !IsLowerLetter(r)
    ensures IsLowerLetter(c) <==> r != c
  {
    if IsLowerLetter(c) then (c as int - 32) as char else c
  }

  /** `str.lower()` / `String.prototype.toLowerCase()`. */
  function LowerStr(s: string): (r: string)
    ensures |r| == |s|
    ensures forall i :: 0 <= i < |s| ==> r[i] == Lower(s[i])
  {
    seq(|s|, i requires 0 <= i < |s| => Lower(s[i]))
  }

  lemma {:induction false} LowerStrIdempotent(s: string)
    ensures LowerStr(LowerStr(s)) == LowerStr(s)
  {
  }

  // ---------------------------------------------------------------- substrings

  predicate OccursAt(s: string, t: string, i: int) {
    0 <= i && i + |t| <= |s| && s[i..i + |t|] == t
  }

  /** Python's `t in s`, JavaScript's `s.includes(t)`. */
  predicate Contains(s: string, t: string) {
    exists i | 0 <= i <= |s| :: OccursAt(s, t, i)
  }

  /** A text none of whose characters is the first one of `t` does not contain `t`. */
  lemma AbsentHead(s: string, t: string)
    requires |t| > 0 && t[0] !in s
    ensures !Contains(s, t)
  {
    forall i | 0 <= i <= |s| ensures !OccursAt(s, t, i) {
      if i + |t| <= |s| {
        assert s[i..i + |t|][0] == s[i];
        assert s[i] in s;
      }
    }
  }

  predicate StartsWith(s: string, prefix: string) {
    |prefix| <= |s| && s[..|prefix|] == prefix
  }

  lemma ContainsAppend(a: string, b: string, t: string)
    requires Contains(a, t) || Contains(b, t)
    ensures Contains(a + b, t)
  {
    if Contains(a, t) {
      var i :| 0 <= i <= |a| && OccursAt(a, t, i);
      assert (a + b)[i..i + |t|] == a[i..i + |t|];
      assert OccursAt(a + b, t, i);
    } else {
      var i :| 0 <= i <= |b| && OccursAt(b, t, i);
      assert (a + b)[|a| + i..|a| + i + |t|] == b[i..i + |t|];
      assert OccursAt(a + b, t, |a| + i);
    }
  }

  // ---------------------------------------------------------------- replacement

  /**
   * Replaces every non-overlapping occurrence of `pat`, scanning left to right:
   * Python's `str.replace(pat, rep)` and JavaScript's `replace(/pat/g, rep)`.
   */
  function ReplaceAll(s: string, pat: string, rep: string): string
    requires |pat| > 0
    decreases |s|
  {
    if |s| < |pat| then s
    else if s[..|pat|] == pat then rep + ReplaceAll(s[|pat|..], pat, rep)
    else [s[0]] + ReplaceAll(s[1..], pat, rep)
  }

  /** Replacing one character by another maps the string position by position. */
  lemma {:induction false} ReplaceAllChar(s: string, a: char, b: char)
    ensures |ReplaceAll(s, [a], [b])| == |s|
    ensures forall i :: 0 <= i < |s| ==> ReplaceAll(s, [a], [b])[i] == if s[i] == a then b else s[i]
  {
    if |s| > 0 {
      ReplaceAllChar(s[1..], a, b);
      assert s[..1] == [s[0]];
    }
  }

  /** Deleting one character keeps exactly the other characters, in order. */
  lemma {:induction false} ReplaceAllDelete(s: string, a: char)
    ensures ReplaceAll(s, [a], "") == Filter(s, c => c != a)
  {
    if |s| > 0 {
      ReplaceAllDelete(s[1..], a);
      assert s[..1] == [s[0]];
    }
  }

  /** A string without `pat` is left alone. */
  lemma {:induction false} ReplaceAllAbsent(s: string, pat: string, rep: string)
    requires |pat| > 0
    requires !Contains(s, pat)
    ensures ReplaceAll(s, pat, rep) == s
  {
    if |s| >= |pat| {
      assert !OccursAt(s, pat, 0);
      if !Contains(s[1..], pat) {
        ReplaceAllAbsent(s[1..], pat, rep);
      } else {
        var i :| 0 <= i <= |s[1..]| && OccursAt(s[1..], pat, i);
        assert s[1 + i..1 + i + |pat|] == s[1..][i..i + |pat|];
        assert OccursAt(s, pat, i + 1);
      }
    }
  }

  /** One character run through a one-character replacement. */
  lemma ReplaceAllOne(x: char, c: char, rep: string)
    ensures ReplaceAll([x], [c], rep) == if x == c then rep else [x]
  {
    assert [x][..1] == [x] && [x][1..] == [];
  }

  /** A one-character replacement distributes over concatenation. */
  lemma {:induction false} ReplaceAllCharAppend(a: string, b: string, c: char, rep: string)
    ensures ReplaceAll(a + b, [c], rep) == ReplaceAll(a, [c], rep) + ReplaceAll(b, [c], rep)
  {
    if a == [] {
      assert a + b == b;
    } else {
      assert (a + b)[..1] == [a[0]] && a[..1] == [a[0]];
      assert (a + b)[1..] == a[1..] + b;
      ReplaceAllCharAppend(a[1..], b, c, rep);
    }
  }

  /** A character that occurs once, between `a` and `b`, is the one replaced. */
  lemma ReplaceAllAround(a: string, b: string, c: char, rep: string)
    requires c !in a && c !in b
    ensures ReplaceAll(a + [c] + b, [c], rep) == a + rep + b
  {
    ReplaceAllCharAppend(a + [c], b, c, rep);
    ReplaceAllCharAppend(a, [c], c, rep);
    ReplaceAllOne(c, c, rep);
    AbsentHead(a, [c]);
    ReplaceAllAbsent(a, [c], rep);
    AbsentHead(b, [c]);
    ReplaceAllAbsent(b, [c], rep);
  }

  /** A replacement with no occurrence at the front moves past the first character. */
  lemma ReplaceAllStep(s: string, pat: string, rep: string)
    requires |pat| > 0 && |s| > 0
    requires |s| < |pat| || s[..|pat|] != pat
    ensures ReplaceAll(s, pat, rep) == [s[0]] + ReplaceAll(s[1..], pat, rep)
  {
    if |s| < |pat| {
      assert ReplaceAll(s[1..], pat, rep) == s[1..];
      assert s == [s[0]] + s[1..];
    }
  }

  /** A text whose characters cannot start the pattern passes through a replacement unchanged. */
  lemma {:induction false} ReplaceAllSkip(t: string, b: string, pat: string, rep: string)
    requires |pat| > 0 && pat[0] !in t
    ensures ReplaceAll(t + b, pat, rep) == t + ReplaceAll(b, pat, rep)
  {
    if t == [] {
      assert t + b == b;
    } else {
      var s := t + b;
      assert s[0] == t[0] && t[0] in t;
      if |s| >= |pat| {
        assert s[..|pat|][0] == s[0];
      }
      ReplaceAllStep(s, pat, rep);
      assert s[1..] == t[1..] + b;
      ReplaceAllSkip(t[1..], b, pat, rep);
    }
  }

  /** An occurrence of the pattern at the front is replaced. */
  lemma ReplaceAllFront(b: string, pat: string, rep: string)
    requires |pat| > 0
    ensures ReplaceAll(pat + b, pat, rep) == rep + ReplaceAll(b, pat, rep)
  {
    assert (pat + b)[..|pat|] == pat && (pat + b)[|pat|..] == b;
  }

  /**
   * A bracketed token: it starts with `open`, ends with `close`, and neither
   * occurs anywhere else in it (an HTML character reference `&...;` is one).
   */
  predicate Bracketed(e: string, open: char, close: char) {
    |e| >= 2 && e[0] == open && e[|e| - 1] == close && open !in e[1..] && close !in e[..|e| - 1]
  }

  /** A bracketed token is not a proper prefix of another, nor is another a prefix of it. */
  lemma BracketedApart(e: string, b: string, pat: string, open: char, close: char)
    requires Bracketed(e, open, close) && Bracketed(pat, open, close) && e != pat
    ensures |e + b| < |pat| || (e + b)[..|pat|] != pat
  {
    var s := e + b;
    if |s| >= |pat| {
      if |pat| < |e| {
        assert e[..|e| - 1][|pat| - 1] == s[..|pat|][|pat| - 1];
      } else if |pat| == |e| {
        assert s[..|pat|] == e;
      } else {
        assert pat[..|pat| - 1][|e| - 1] == pat[|e| - 1];
        assert s[..|pat|][|e| - 1] == e[|e| - 1];
      }
    }
  }

  /** Another bracketed token at the front is passed over whole: two such tokens never overlap. */
  lemma ReplaceAllOtherToken(e: string, b: string, pat: string, rep: string, open: char, close: char)
    requires Bracketed(e, open, close) && Bracketed(pat, open, close) && e != pat
    ensures ReplaceAll(e + b, pat, rep) == e + ReplaceAll(b, pat, rep)
  {
    BracketedApart(e, b, pat, open, close);
    ReplaceAllStep(e + b, pat, rep);
    assert (e + b)[1..] == e[1..] + b;
    ReplaceAllSkip(e[1..], b, pat, rep);
    assert e == [e[0]] + e[1..];
  }

  /** The characters of `s`, each turned into a piece by `f`, put together. */
  function ConcatMap(s: string, f: char -> string): string {
    if s == [] then [] else f(s[0]) + ConcatMap(s[1..], f)
  }

  /** Equal pieces give equal texts. */
  lemma {:induction false} ConcatMapCongruent(s: string, f: char -> string, g: char -> string)
    requires forall c :: f(c) == g(c)
    ensures ConcatMap(s, f) == ConcatMap(s, g)
  {
    if s != [] {
      ConcatMapCongruent(s[1..], f, g);
    }
  }

  /** Pieces that are the characters themselves give back the text. */
  lemma {:induction false} ConcatMapSame(s: string, f: char -> string)
    requires forall i :: 0 <= i < |s| ==> f(s[i]) == [s[i]]
    ensures ConcatMap(s, f) == s
  {
    if s != [] {
      assert f(s[0]) == [s[0]];
      ConcatMapSame(s[1..], f);
    }
  }

  /** When every piece is at least a character long and one is longer, the result is longer than the text. */
  lemma {:induction false} ConcatMapLonger(s: string, f: char -> string, k: nat)
    requires forall c :: |f(c)| >= 1
    requires k < |s| && |f(s[k])| > 1
    ensures |ConcatMap(s, f)| > |s|
  {
    if k > 0 {
      ConcatMapLonger(s[1..], f, k - 1);
    } else {
      ConcatMapNotShorter(s[1..], f);
    }
  }

  lemma {:induction false} ConcatMapNotShorter(s: string, f: char -> string)
    requires forall c :: |f(c)| >= 1
    ensures |ConcatMap(s, f)| >= |s|
  {
    if s != [] {
      ConcatMapNotShorter(s[1..], f);
    }
  }

  /** Every character of the result comes from the piece of some character of the text. */
  lemma {:induction false} ConcatMapChars(s: string, f: char -> string, c: char)
    requires c in ConcatMap(s, f)
    ensures exists i :: 0 <= i < |s| && c in f(s[i])
  {
    if c !in f(s[0]) {
      ConcatMapChars(s[1..], f, c);
      var i :| 0 <= i < |s[1..]| && c in f(s[1..][i]);
      assert s[1..][i] == s[i + 1];
    }
  }

  /** A one-character replacement over a text made of pieces acts on each piece. */
  lemma {:induction false} ReplaceCharPieces(s: string, f: char -> string, c: char, rep: string, g: char -> string)
    requires forall x :: g(x) == ReplaceAll(f(x), [c], rep)
    ensures ReplaceAll(ConcatMap(s, f), [c], rep) == ConcatMap(s, g)
  {
    if s != [] {
      ReplaceAllCharAppend(f(s[0]), ConcatMap(s[1..], f), c, rep);
      ReplaceCharPieces(s[1..], f, c, rep, g);
    }
  }

  /**
   * Replacing a bracketed token in a text whose pieces are bracketed tokens
   * or single characters other than `open` acts on each piece: it turns the
   * pieces equal to the token into `rep` and leaves the others.
   */
  lemma {:induction false} ReplaceTokenPieces(s: string, f: char -> string, pat: string, rep: string, g: char -> string,
                                              open: char, close: char)
    requires Bracketed(pat, open, close)
    requires forall x :: (|f(x)| == 1 && f(x)[0] != open) || Bracketed(f(x), open, close)
    requires forall x :: g(x) == if f(x) == pat then rep else f(x)
    ensures ReplaceAll(ConcatMap(s, f), pat, rep) == ConcatMap(s, g)
  {
    if s != [] {
      var p := f(s[0]);
      var rest := ConcatMap(s[1..], f);
      ReplaceTokenPieces(s[1..], f, pat, rep, g, open, close);
      if p == pat {
        ReplaceAllFront(rest, pat, rep);
      } else if |p| == 1 && p[0] != open {
        ReplaceAllSkip(p, rest, pat, rep);
      } else {
        ReplaceAllOtherToken(p, rest, pat, rep, open, close);
      }
    }
  }

  // ---------------------------------------------------------------- filtering

  /** The characters of `s` that satisfy `keep`, in order. */
  function Filter(s: string, keep: char -> bool): (r: string)
    ensures |r| <= |s|
    ensures forall c :: c in r ==> keep(c) && c in s
  {
    if s == [] then [] else if keep(s[0]) then [s[0]] + Filter(s[1..], keep) else Filter(s[1..], keep)
  }

  /** `a` is obtained from `b` by deleting elements, keeping the order of the rest. */
  ghost predicate IsSubsequence<T>(a: seq<T>, b: seq<T>)
    decreases |b|
  {
    if a == [] then true
    else if b == [] then false
    else if a[0] == b[0] then IsSubsequence(a[1..], b[1..])
    else IsSubsequence(a, b[1..])
  }

  lemma {:induction false} FilterIsSubsequence(s: string, keep: char -> bool)
    ensures IsSubsequence(Filter(s, keep), s)
  {
    if s != [] {
      FilterIsSubsequence(s[1..], keep);
      if !keep(s[0]) {
        SubsequenceOfTail(Filter(s[1..], keep), s);
      }
    }
  }

  lemma {:induction false} SubsequenceOfTail<T>(a: seq<T>, b: seq<T>)
    requires b != [] && IsSubsequence(a, b[1..])
    ensures IsSubsequence(a, b)
    decreases |b|, 1
  {
    if a != [] && a[0] == b[0] {
      SubsequenceDropHead(a, b[1..]);
    }
  }

  lemma {:induction false} SubsequenceDropHead<T>(a: seq<T>, b: seq<T>)
    requires a != [] && IsSubsequence(a, b)
    ensures IsSubsequence(a[1..], b)
    decreases |b|, 2
  {
    if a[0] == b[0] {
      if a[1..] != [] {
        SubsequenceOfTail(a[1..], b);
      }
    } else {
      SubsequenceDropHead(a, b[1..]);
      if a[1..] != [] {
        SubsequenceOfTail(a[1..], b);
      }
    }
  }

  /** Filtering twice with the same test is filtering once. */
  lemma {:induction false} FilterIdempotent(s: string, keep: char -> bool)
    ensures Filter(Filter(s, keep), keep) == Filter(s, keep)
  {
    FilterAllKept(Filter(s, keep), keep);
  }

  /** A string whose characters all pass is its own filtering. */
  lemma {:induction false} FilterAllKept(s: string, keep: char -> bool)
    requires forall c :: c in s ==> keep(c)
    ensures Filter(s, keep) == s
  {
    if s != [] {
      assert s[0] in s;
      assert forall c :: c in s[1..] ==> c in s;
      FilterAllKept(s[1..], keep);
    }
  }

  /** Filtering a concatenation filters each part. */
  lemma {:induction false} FilterAppend(a: string, b: string, keep: char -> bool)
    ensures Filter(a + b, keep) == Filter(a, keep) + Filter(b, keep)
  {
    if a == [] {
      assert a + b == b;
    } else {
      assert (a + b)[0] == a[0];
      assert (a + b)[1..] == a[1..] + b;
      FilterAppend(a[1..], b, keep);
    }
  }

  // ---------------------------------------------------------------- trimming

  /** Drops leading whitespace. */
  function TrimStart(s: string): (r: string)
    ensures |r| <= |s| && r == s[|s| - |r|..]
    ensures forall j :: 0 <= j < |s| - |r| ==> IsSpace(s[j])
    ensures |r| > 0 ==> !IsSpace(r[0])
  {
    if |s| > 0 && IsSpace(s[0]) then TrimStart(s[1..]) else s
  }

  /** Drops trailing whitespace. */
  function TrimEnd(s: string): (r: string)
    ensures |r| <= |s| && r == s[..|r|]
    ensures forall j :: |r| <= j < |s| ==> IsSpace(s[j])
    ensures |r| > 0 ==> !IsSpace(r[|r| - 1])
  {
    if |s| > 0 && IsSpace(s[|s| - 1]) then TrimEnd(s[..|s| - 1]) else s
  }

  /** Python's `str.strip()`: the longest slice of `s` that neither starts nor ends in whitespace. */
  function Strip(s: string): (r: string)
    ensures |r| <= |s|
    ensures |r| > 0 ==> !IsSpace(r[0]) && !IsSpace(r[|r| - 1])
    ensures forall c :: c in r ==> c in s
  {
    TrimEnd(TrimStart(s))
  }

  // ---------------------------------------------------------------- runs

  /** Drops the leading run of characters satisfying `p`. */
  function SkipRun(s: string, p: char -> bool): (r: string)
    ensures |r| <= |s| && r == s[|s| - |r|..]
    ensures |r| > 0 ==> !p(r[0])
  {
    if |s| > 0 && p(s[0]) then SkipRun(s[1..], p) else s
  }

  /** Replaces each maximal run of characters satisfying `p` by the single character `rep`. */
  function ReplaceRuns(s: string, p: char -> bool, rep: char): (r: string)
    decreases |s|
  {
    if s == [] then []
    else if p(s[0]) then [rep] + ReplaceRuns(SkipRun(s, p), p, rep)
    else [s[0]] + ReplaceRuns(s[1..], p, rep)
  }

  /** After the replacement no character satisfying `p` is left, unless `rep` does. */
  lemma {:induction false} ReplaceRunsRemoves(s: string, p: char -> bool, rep: char)
    requires !p(rep)
    ensures forall c :: c in ReplaceRuns(s, p, rep) ==> !p(c)
    ensures |ReplaceRuns(s, p, rep)| <= |s|
    decreases |s|
  {
    if s != [] {
      if p(s[0]) {
        ReplaceRunsRemoves(SkipRun(s, p), p, rep);
      } else {
        ReplaceRunsRemoves(s[1..], p, rep);
      }
    }
  }

  /** A string with no character satisfying `p` is left alone. */
  lemma {:induction false} ReplaceRunsAbsent(s: string, p: char -> bool, rep: char)
    requires forall c :: c in s ==> !p(c)
    ensures ReplaceRuns(s, p, rep) == s
  {
    if s != [] {
      assert s[0] in s;
      assert forall c :: c in s[1..] ==> c in s;
      ReplaceRunsAbsent(s[1..], p, rep);
    }
  }

  /** The replacement only writes `rep` and characters of `s`. */
  lemma {:induction false} ReplaceRunsChars(s: string, p: char -> bool, rep: char)
    ensures forall c :: c in ReplaceRuns(s, p, rep) ==> c == rep || c in s
    decreases |s|
  {
    if s != [] {
      if p(s[0]) {
        var t := SkipRun(s, p);
        assert forall c :: c in t ==> c in s;
        ReplaceRunsChars(t, p, rep);
      } else {
        assert forall c :: c in s[1..] ==> c in s;
        ReplaceRunsChars(s[1..], p, rep);
      }
    }
  }

  /** Two replacement characters are never adjacent: each stands for one whole run. */
  lemma {:induction false} ReplaceRunsSeparated(s: string, p: char -> bool, rep: char)
    requires !p(rep)
    requires forall c :: c in s && c == rep ==> false
    ensures forall i :: 0 <= i < |ReplaceRuns(s, p, rep)| - 1 ==>
      !(ReplaceRuns(s, p, rep)[i] == rep && ReplaceRuns(s, p, rep)[i + 1] == rep)
    decreases |s|
  {
    if s != [] {
      if p(s[0]) {
        var t := SkipRun(s, p);
        assert forall c :: c in t ==> c in s;
        ReplaceRunsSeparated(t, p, rep);
        if t != [] {
          assert t[0] in s;
          assert ReplaceRuns(t, p, rep)[0] == t[0];
        }
      } else {
        assert forall c :: c in s[1..] ==> c in s;
        ReplaceRunsSeparated(s[1..], p, rep);
      }
    }
  }

  /** The test `p` turned around. */
  function Not(p: char -> bool): char -> bool {
    c => !p(c)
  }

  /** The test "is not `x`". */
  function Other(x: char): char -> bool {
    c => c != x
  }

  /** Skipping a run drops only characters that filtering by `Not(p)` drops anyway. */
  lemma {:induction false} FilterSkipRun(s: string, p: char -> bool)
    ensures Filter(SkipRun(s, p), Not(p)) == Filter(s, Not(p))
    decreases |s|
  {
    if |s| > 0 && p(s[0]) {
      FilterSkipRun(s[1..], p);
    }
  }

  /** Leaving out the replacement characters leaves the characters outside the runs, in order. */
  lemma {:induction false} ReplaceRunsKeeps(s: string, p: char -> bool, rep: char)
    requires !p(rep) && rep !in s
    ensures Filter(ReplaceRuns(s, p, rep), Other(rep)) == Filter(s, Not(p))
    decreases |s|
  {
    if s != [] {
      if p(s[0]) {
        var t := SkipRun(s, p);
        assert forall c :: c in t ==> c in s;
        ReplaceRunsKeeps(t, p, rep);
        FilterSkipRun(s, p);
        assert ([rep] + ReplaceRuns(t, p, rep))[1..] == ReplaceRuns(t, p, rep);
      } else {
        assert s[0] in s;
        assert forall c :: c in s[1..] ==> c in s;
        ReplaceRunsKeeps(s[1..], p, rep);
        assert ([s[0]] + ReplaceRuns(s[1..], p, rep))[1..] == ReplaceRuns(s[1..], p, rep);
      }
    }
  }

  /** A whole run, followed by something that does not continue it, is skipped up to its end. */
  lemma {:induction false} SkipRunWhole(w: string, y: string, p: char -> bool)
    requires forall c :: c in w ==> p(c)
    requires y == [] || !p(y[0])
    ensures SkipRun(w + y, p) == y
    decreases |w|
  {
    if w == [] {
      assert w + y == y;
    } else {
      assert (w + y)[0] == w[0] && w[0] in w;
      assert (w + y)[1..] == w[1..] + y;
      assert forall c :: c in w[1..] ==> c in w;
      SkipRunWhole(w[1..], y, p);
    }
  }

  /** A run that ends inside `x` is skipped without looking at what follows `x`. */
  lemma {:induction false} SkipRunAppend(x: string, z: string, p: char -> bool)
    requires x != [] && !p(x[|x| - 1])
    ensures SkipRun(x + z, p) == SkipRun(x, p) + z
    decreases |x|
  {
    assert (x + z)[0] == x[0];
    if p(x[0]) {
      assert (x + z)[1..] == x[1..] + z;
      SkipRunAppend(x[1..], z, p);
    }
  }

  /** A text that does not end inside a run is replaced independently of what follows it. */
  lemma {:induction false} ReplaceRunsAppend(x: string, z: string, p: char -> bool, rep: char)
    requires x == [] || !p(x[|x| - 1])
    ensures ReplaceRuns(x + z, p, rep) == ReplaceRuns(x, p, rep) + ReplaceRuns(z, p, rep)
    decreases |x|
  {
    if x == [] {
      assert x + z == z;
    } else if p(x[0]) {
      var u := SkipRun(x, p);
      SkipRunAppend(x, z, p);
      assert u == [] || u[|u| - 1] == x[|x| - 1];
      ReplaceRunsAppend(u, z, p, rep);
      AppendRunStep(x, z, u, p, rep);
    } else {
      var t := x[1..];
      assert t == [] || t[|t| - 1] == x[|x| - 1];
      ReplaceRunsAppend(t, z, p, rep);
      AppendPlainStep(x, z, p, rep);
    }
  }

  /** The step of `ReplaceRunsAppend` for a text that starts with a run ending in `u`. */
  lemma AppendRunStep(x: string, z: string, u: string, p: char -> bool, rep: char)
    requires x != [] && p(x[0]) && u == SkipRun(x, p)
    requires SkipRun(x + z, p) == u + z
    requires ReplaceRuns(u + z, p, rep) == ReplaceRuns(u, p, rep) + ReplaceRuns(z, p, rep)
    ensures ReplaceRuns(x + z, p, rep) == ReplaceRuns(x, p, rep) + ReplaceRuns(z, p, rep)
  {
    RunHead(x, z, p, rep);
    ConcatAssoc([rep], ReplaceRuns(u, p, rep), ReplaceRuns(z, p, rep));
  }

  /** The step of `ReplaceRunsAppend` for a text that starts with a character kept as it is. */
  lemma AppendPlainStep(x: string, z: string, p: char -> bool, rep: char)
    requires x != [] && !p(x[0])
    requires ReplaceRuns(x[1..] + z, p, rep) == ReplaceRuns(x[1..], p, rep) + ReplaceRuns(z, p, rep)
    ensures ReplaceRuns(x + z, p, rep) == ReplaceRuns(x, p, rep) + ReplaceRuns(z, p, rep)
  {
    PlainHead(x, z, p, rep);
    ConcatAssoc([x[0]], ReplaceRuns(x[1..], p, rep), ReplaceRuns(z, p, rep));
  }

  /** One unfolding of `ReplaceRuns` at a run that starts a concatenation. */
  lemma RunHead(x: string, z: string, p: char -> bool, rep: char)
    requires x != [] && p(x[0])
    ensures ReplaceRuns(x + z, p, rep) == [rep] + ReplaceRuns(SkipRun(x + z, p), p, rep)
  {
    assert (x + z)[0] == x[0];
  }

  /** One unfolding of `ReplaceRuns` at a kept character that starts a concatenation. */
  lemma PlainHead(x: string, z: string, p: char -> bool, rep: char)
    requires x != [] && !p(x[0])
    ensures ReplaceRuns(x + z, p, rep) == [x[0]] + ReplaceRuns(x[1..] + z, p, rep)
  {
    assert (x + z)[0] == x[0] && (x + z)[1..] == x[1..] + z;
  }

  /**
   * Associativity of concatenation, stated apart: proved where no other term
   * is in scope it costs nothing, while the same assertion inside a proof
   * about `ReplaceRuns` or a page's markup sends the solver through every
   * definition there.
   */
  lemma ConcatAssoc<T>(a: seq<T>, b: seq<T>, c: seq<T>)
    ensures (a + b) + c == a + (b + c)
  {
  }

  /** A whole run at the front becomes one `rep`. */
  lemma ReplaceRunsFront(w: string, y: string, p: char -> bool, rep: char)
    requires w != [] && forall c :: c in w ==> p(c)
    requires y == [] || !p(y[0])
    ensures ReplaceRuns(w + y, p, rep) == [rep] + ReplaceRuns(y, p, rep)
  {
    assert (w + y)[0] == w[0] && w[0] in w;
    SkipRunWhole(w, y, p);
  }

  /**
   * Each maximal run becomes exactly one `rep`: when `w` is a whole run of
   * `x + w + y`, the replacement of the text is that of `x`, one `rep`, and
   * that of `y`.
   */
  lemma ReplaceRunsAt(x: string, w: string, y: string, p: char -> bool, rep: char)
    requires w != [] && forall c :: c in w ==> p(c)
    requires x == [] || !p(x[|x| - 1])
    requires y == [] || !p(y[0])
    ensures ReplaceRuns(x + w + y, p, rep) == ReplaceRuns(x, p, rep) + [rep] + ReplaceRuns(y, p, rep)
  {
    ConcatAssoc(x, w, y);
    ReplaceRunsAppend(x, w + y, p, rep);
    ReplaceRunsFront(w, y, p, rep);
    ConcatAssoc(ReplaceRuns(x, p, rep), [rep], ReplaceRuns(y, p, rep));
  }

  // ---------------------------------------------------------------- split / join

  /** Python's `s.split(sep)` for a one-character separator. */
  function Split(s: string, sep: char): (parts: seq<string>)
    ensures |parts| >= 1
    ensures forall k :: 0 <= k < |parts| ==> sep !in parts[k]
  {
    if s == [] then [[]]
    else if s[0] == sep then [[]] + Split(s[1..], sep)
    else
      var rest := Split(s[1..], sep);
      [[s[0]] + rest[0]] + rest[1..]
  }

  /** Python's `sep.join(parts)`. */
  function Join(parts: seq<string>, sep: string): string {
    if parts == [] then []
    else if |parts| == 1 then parts[0]
    else parts[0] + sep + Join(parts[1..], sep)
  }

  /** Joining the pieces with the separator they were split on restores the text. */
  lemma {:induction false} JoinSplit(s: string, sep: char)
    ensures Join(Split(s, sep), [sep]) == s
  {
    if s != [] {
      JoinSplit(s[1..], sep);
      var rest := Split(s[1..], sep);
      if s[0] != sep {
        if |rest| > 1 {
          assert ([[s[0]] + rest[0]] + rest[1..])[1..] == rest[1..];
          assert Join(rest, [sep]) == rest[0] + [sep] + Join(rest[1..], [sep]);
        }
      }
    }
  }

  /** Splitting and joining with another one-character separator replaces the separator by it. */
  lemma {:induction false} JoinSplitReplace(s: string, sep: char, c: char)
    ensures Join(Split(s, sep), [c]) == ReplaceAll(s, [sep], [c])
  {
    if s != [] {
      JoinSplitReplace(s[1..], sep, c);
      assert s[..1] == [s[0]];
      var rest := Split(s[1..], sep);
      if s[0] != sep {
        if |rest| > 1 {
          assert ([[s[0]] + rest[0]] + rest[1..])[1..] == rest[1..];
          assert Join(rest, [c]) == rest[0] + [c] + Join(rest[1..], [c]);
        }
      }
    }
  }

  /** A text without the separator is a single piece. */
  lemma {:induction false} SplitWithoutSeparator(s: string, sep: char)
    requires sep !in s
    ensures Split(s, sep) == [s]
  {
    if s != [] {
      assert s[0] != sep;
      assert forall x :: x in s[1..] ==> x in s;
      SplitWithoutSeparator(s[1..], sep);
      assert [s[0]] + s[1..] == s;
    }
  }

  /** The first piece ends at the first separator; the rest is the split of what follows it. */
  lemma {:induction false} SplitAtFirst(s: string, sep: char, k: nat)
    requires k < |s| && s[k] == sep && sep !in s[..k]
    ensures Split(s, sep) == [s[..k]] + Split(s[k + 1..], sep)
  {
    if k > 0 {
      assert s[0] != sep by { assert s[0] == s[..k][0]; }
      assert s[1..][..k - 1] == s[1..k];
      assert sep !in s[1..][..k - 1] by { assert forall x :: x in s[1..k] ==> x in s[..k]; }
      SplitAtFirst(s[1..], sep, k - 1);
      assert s[1..][k..] == s[k + 1..];
      assert [s[0]] + s[1..k] == s[..k];
    }
  }

  /** Two pieces without the separator, joined by it, split back into those two. */
  lemma SplitPair(a: string, b: string, sep: char)
    requires sep !in a && sep !in b
    ensures Split(a + [sep] + b, sep) == [a, b]
  {
    var t := a + [sep] + b;
    assert t[..|a|] == a && t[|a|] == sep && t[|a| + 1..] == b;
    SplitAtFirst(t, sep, |a|);
    SplitWithoutSeparator(b, sep);
  }

  // ---------------------------------------------------------------- numbers

  function DigitChar(d: nat): (c: char)
    requires d < 10
    ensures IsDigit(c)
  {
    ('0' as int + d) as char
  }

  function DigitValue(c: char): (d: nat)
    requires IsDigit(c)
    ensures d < 10 && DigitChar(d) == c
  {
    c as int - '0' as int
  }

  /** Decimal notation of a natural number, as `str(n)` and `String(n)` print it. */
  function NatToString(n: nat): (r: string)
    ensures |r| > 0 && forall c :: c in r ==> IsDigit(c)
    decreases n
  {
    if n < 10 then [DigitChar(n)] else NatToString(n / 10) + [DigitChar(n % 10)]
  }

  /** Value of a (possibly empty) string of decimal digits. */
  function DigitsValue(s: string): nat
    requires forall c :: c in s ==> IsDigit(c)
  {
    if s == [] then 0
    else
      assert forall c :: c in s[..|s| - 1] ==> c in s;
      DigitsValue(s[..|s| - 1]) * 10 + DigitValue(s[|s| - 1])
  }

  /** Reading back the decimal notation yields the number. */
  lemma {:induction false} NatToStringRoundTrip(n: nat)
    ensures DigitsValue(NatToString(n)) == n
    decreases n
  {
    if n >= 10 {
      NatToStringRoundTrip(n / 10);
      var s := NatToString(n);
      assert s[..|s| - 1] == NatToString(n / 10);
    }
  }

  /** A text that neither starts nor ends in whitespace is its own `strip()`. */
  lemma StripUntouched(s: string)
    requires s == [] || (!IsSpace(s[0]) && !IsSpace(s[|s| - 1]))
    ensures Strip(s) == s
  {
    assert TrimStart(s) == s;
    assert TrimEnd(s) == s;
  }

  /** A numeral of digits and dots is left alone by `strip()` and `lower()`. */
  lemma NumeralUntouched(s: string)
    requires forall c :: c in s ==> IsDigit(c) || c == '.'
    ensures Strip(s) == s && LowerStr(s) == s
  {
    if s != [] {
      assert s[0] in s && s[|s| - 1] in s;
      StripUntouched(s);
    }
    forall i | 0 <= i < |s| ensures LowerStr(s)[i] == s[i] {
      assert s[i] in s;
    }
  }
}
