/**
 * `escapeHtml` (frontend/common.js:6-14, repeated in frontend/main.js:294-302):
 * the five markup characters replaced by character references, `&` first.
 */
module Html {
  import opened Text
  import opened Js

  /**
   * The five chained `replace` calls, in the order the source applies them:
   * `&` by `&amp;`, `<` by `&lt;`, `>` by `&gt;`, `"` by `&quot;`, `'` by `&#039;`.
   */
  function Escape(s: string): string {
    EscapeStep(4, EscapeStep(3, EscapeStep(2, EscapeStep(1, EscapeStep(0, s)))))
  }

  /** The `k`-th `replace(/c/g, ref)` of the chain. */
  function EscapeStep(k: nat, t: string): string
    requires k < 5
  {
    ReplaceAll(t, [Target(k)], Reference(k))
  }

  /** `escapeHtml(text)`: `null` and `undefined` give the empty text, anything else is converted and escaped. */
  function EscapeHtml(v: Value): string {
    if v == Null || v == Undefined then "" else Escape(ToStr(v))
  }

  predicate IsMarkup(c: char) { c == '<' || c == '>' || c == '"' || c == '\'' }

  /** The five characters `escapeHtml` replaces. */
  predicate NeedsEscape(c: char) { c == '&' || IsMarkup(c) }

  /** A character's piece after the first `k` of the five replacements. */
  function Replaced(k: nat, c: char): string {
    if c == '&' && k >= 1 then "&amp;"
    else if c == '<' && k >= 2 then "&lt;"
    else if c == '>' && k >= 3 then "&gt;"
    else if c == '"' && k >= 4 then "&quot;"
    else if c == '\'' && k >= 5 then "&#039;"
    else [c]
  }

  /** The pieces of all characters after the first `k` replacements. */
  function Stage(k: nat): char -> string {
    c => Replaced(k, c)
  }

  /** The character the `k`-th replacement looks for. */
  function Target(k: nat): char
    requires k < 5
  {
    if k == 0 then '&' else if k == 1 then '<' else if k == 2 then '>' else if k == 3 then '"' else '\''
  }

  /** The reference the `k`-th replacement writes. */
  function Reference(k: nat): string
    requires k < 5
  {
    if k == 0 then "&amp;" else if k == 1 then "&lt;" else if k == 2 then "&gt;" else if k == 3 then "&quot;" else "&#039;"
  }

  /** The position of one of the five characters in the replacement order. */
  function Index(c: char): (k: nat)
    requires NeedsEscape(c)
    ensures k < 5 && Target(k) == c
  {
    if c == '&' then 0 else if c == '<' then 1 else if c == '>' then 2 else if c == '"' then 3 else 4
  }

  /** After `k` replacements a character is its reference when its replacement has run, and itself otherwise. */
  lemma ReplacedAt(k: nat, c: char)
    ensures Replaced(k, c) == if NeedsEscape(c) && Index(c) < k then Reference(Index(c)) else [c]
  {
  }

  /** Every reference is a bracketed token `&...;`, without any of the four other markup characters. */
  lemma ReferenceShape(k: nat)
    requires k < 5
    ensures Bracketed(Reference(k), '&', ';')
    ensures forall c :: c in Reference(k) ==> !IsMarkup(c)
  {
  }

  /** The `k`-th replacement acts on one character's piece as the next stage says. */
  lemma ReplacedStep(k: nat, c: char)
    requires k < 5
    ensures Replaced(k + 1, c) == ReplaceAll(Replaced(k, c), [Target(k)], Reference(k))
  {
    ReplacedAt(k, c);
    ReplacedAt(k + 1, c);
    if NeedsEscape(c) && Index(c) < k {
      var p := Reference(Index(c));
      ReferenceShape(Index(c));
      assert Target(k) !in p;
      AbsentHead(p, [Target(k)]);
      ReplaceAllAbsent(p, [Target(k)], Reference(k));
    } else {
      ReplaceAllOne(c, Target(k), Reference(k));
    }
  }

  /** The `k`-th replacement, applied to the text made of the stage-`k` pieces, gives the stage-`k + 1` pieces. */
  lemma StagePieces(s: string, k: nat)
    requires k < 5
    ensures EscapeStep(k, ConcatMap(s, Stage(k))) == ConcatMap(s, Stage(k + 1))
  {
    forall c ensures Stage(k + 1)(c) == ReplaceAll(Stage(k)(c), [Target(k)], Reference(k)) {
      ReplacedStep(k, c);
    }
    ReplaceCharPieces(s, Stage(k), Target(k), Reference(k), Stage(k + 1));
  }

  /** Escaping replaces each character by its piece: no reference a replacement writes is touched by a later one. */
  lemma EscapeByCharacter(s: string)
    ensures Escape(s) == ConcatMap(s, Stage(5))
  {
    forall i | 0 <= i < |s| ensures Stage(0)(s[i]) == [s[i]] {
    }
    ConcatMapSame(s, Stage(0));
    StagePieces(s, 0);
    StagePieces(s, 1);
    StagePieces(s, 2);
    StagePieces(s, 3);
    StagePieces(s, 4);
  }

  /** The escaped text holds none of `<`, `>`, `"` and `'`. */
  lemma EscapeSafe(s: string)
    ensures forall c :: c in Escape(s) ==> !IsMarkup(c)
  {
    EscapeByCharacter(s);
    forall c | c in Escape(s) ensures !IsMarkup(c) {
      ConcatMapChars(s, Stage(5), c);
      var i :| 0 <= i < |s| && c in Stage(5)(s[i]);
      ReplacedAt(5, s[i]);
      if NeedsEscape(s[i]) {
        ReferenceShape(Index(s[i]));
      }
    }
  }

  /** Escaping changes a text exactly when it holds one of the five characters. */
  lemma EscapeIdentity(s: string)
    ensures Escape(s) == s <==> forall i :: 0 <= i < |s| ==> !NeedsEscape(s[i])
  {
    EscapeByCharacter(s);
    forall c ensures |Stage(5)(c)| >= 1 && (NeedsEscape(c) ==> |Stage(5)(c)| > 1) && (!NeedsEscape(c) ==> Stage(5)(c) == [c]) {
      ReplacedAt(5, c);
      if NeedsEscape(c) {
        ReferenceShape(Index(c));
      }
    }
    if forall i :: 0 <= i < |s| ==> !NeedsEscape(s[i]) {
      ConcatMapSame(s, Stage(5));
    } else {
      var k :| 0 <= k < |s| && NeedsEscape(s[k]);
      ConcatMapLonger(s, Stage(5), k);
    }
  }

  /** `escapeHtml` of `null` or `undefined` is empty, its result never holds markup characters, and text without the five characters is shown as it is. */
  lemma EscapeHtmlMeaning(v: Value)
    ensures v == Null || v == Undefined ==> EscapeHtml(v) == ""
    ensures forall c :: c in EscapeHtml(v) ==> !IsMarkup(c)
    ensures v.Str? && (forall i :: 0 <= i < |v.s| ==> !NeedsEscape(v.s[i])) ==> EscapeHtml(v) == v.s
  {
    if v != Null && v != Undefined {
      EscapeSafe(ToStr(v));
      EscapeIdentity(ToStr(v));
    }
  }

  // ------------------------------------------------ decoding

  /** Decoding the references: `&lt;`, `&gt;`, `&quot;` and `&#039;` first, `&amp;` last. */
  function Unescape(t: string): string {
    DecodeStep(4, DecodeStep(3, DecodeStep(2, DecodeStep(1, DecodeStep(0, t)))))
  }

  /** The `k`-th decoding step: one reference back to its character. */
  function DecodeStep(k: nat, t: string): string
    requires k < 5
  {
    ReplaceAll(t, Reference(DecodeIndex(k)), [Target(DecodeIndex(k))])
  }

  /** The position of the `k`-th decoding step's character in the replacement order. */
  function DecodeIndex(k: nat): nat
    requires k < 5
  {
    (k + 1) % 5
  }

  /** A character's piece after the first `k` decoding steps. */
  function Decoded(k: nat, c: char): string {
    if NeedsEscape(c) && (Index(c) + 4) % 5 < k then [c] else Replaced(5, c)
  }

  function DecodeStage(k: nat): char -> string {
    c => Decoded(k, c)
  }

  /** Before the last step, every piece is one character other than `&` or a reference. */
  lemma DecodedShape(k: nat, c: char)
    requires k < 5
    ensures (|Decoded(k, c)| == 1 && Decoded(k, c)[0] != '&') || Bracketed(Decoded(k, c), '&', ';')
  {
    ReplacedAt(5, c);
    if NeedsEscape(c) {
      ReferenceShape(Index(c));
    }
  }

  /** The `k`-th decoding step turns exactly the pieces equal to its reference back into their character. */
  lemma DecodedStep(k: nat, c: char)
    requires k < 5
    ensures Decoded(k + 1, c) ==
      if Decoded(k, c) == Reference(DecodeIndex(k)) then [Target(DecodeIndex(k))] else Decoded(k, c)
  {
    ReplacedAt(5, c);
  }

  /** The `k`-th decoding step, applied to the stage-`k` pieces, gives the stage-`k + 1` pieces. */
  lemma DecodePieces(s: string, k: nat)
    requires k < 5
    ensures DecodeStep(k, ConcatMap(s, DecodeStage(k))) == ConcatMap(s, DecodeStage(k + 1))
  {
    forall c
      ensures (|DecodeStage(k)(c)| == 1 && DecodeStage(k)(c)[0] != '&') || Bracketed(DecodeStage(k)(c), '&', ';')
      ensures DecodeStage(k + 1)(c) ==
        if DecodeStage(k)(c) == Reference(DecodeIndex(k)) then [Target(DecodeIndex(k))] else DecodeStage(k)(c)
    {
      DecodedShape(k, c);
      DecodedStep(k, c);
    }
    ReferenceShape(DecodeIndex(k));
    ReplaceTokenPieces(s, DecodeStage(k), Reference(DecodeIndex(k)), [Target(DecodeIndex(k))], DecodeStage(k + 1), '&', ';');
  }

  /** Before decoding, the pieces are the escaped ones. */
  lemma DecodeStart(s: string)
    ensures Escape(s) == ConcatMap(s, DecodeStage(0))
  {
    EscapeByCharacter(s);
    forall c ensures Stage(5)(c) == DecodeStage(0)(c) {
    }
    ConcatMapCongruent(s, Stage(5), DecodeStage(0));
  }

  /** After all decoding steps, every piece is its character again. */
  lemma DecodeEnd(s: string)
    ensures ConcatMap(s, DecodeStage(5)) == s
  {
    forall i | 0 <= i < |s| ensures DecodeStage(5)(s[i]) == [s[i]] {
      ReplacedAt(5, s[i]);
    }
    ConcatMapSame(s, DecodeStage(5));
  }

  /** Decoding `&lt; &gt; &quot; &#039;` and then `&amp;` recovers the text before escaping. */
  lemma UnescapeEscape(s: string)
    ensures Unescape(Escape(s)) == s
  {
    DecodeStart(s);
    DecodePieces(s, 0);
    DecodePieces(s, 1);
    DecodePieces(s, 2);
    DecodePieces(s, 3);
    DecodePieces(s, 4);
    DecodeEnd(s);
  }
}
