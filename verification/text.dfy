/** The option type and `min`, shared by the whole model. */
module Wrappers {

  datatype Option<+T> = None | Some(value: T)

  function Min(a: nat, b: nat): nat
  {
    if a <= b then a else b
  }
}

/**
 Character classes and substring predicates used by the regular expressions of the
 link checkers. Pages are modelled as `string` (a sequence of Unicode scalar values),
 which is what Python's `str` holds after decoding.
 */
module Text {

  /** The two quote characters of the class `["\']`. */
  predicate IsQuote(c: char)
  {
    c == '"' || c == '\''
  }

  predicate QuoteFree(s: string)
  {
    forall i | 0 <= i < |s| :: !IsQuote(s[i])
  }

  /** `pat` occurs in `text` starting at position `p`. */
  predicate HasAt(text: string, p: nat, pat: string)
  {
    p + |pat| <= |text| && text[p..p + |pat|] == pat
  }

  /** Python's `s.startswith(pre)`. */
  predicate StartsWith(s: string, pre: string)
  {
    |pre| <= |s| && s[..|pre|] == pre
  }

  /** Python's `s.endswith(suf)`. */
  predicate EndsWith(s: string, suf: string)
  {
    |suf| <= |s| && s[|s| - |suf|..] == suf
  }

  /** Python's `pat in text` for strings: the index of the first occurrence, if any. */
  function FindFrom(text: string, pat: string, i: nat): (r: int)
    requires i <= |text|
    ensures r == -1 <==> forall j | i <= j <= |text| :: !HasAt(text, j, pat)
    ensures r != -1 ==> i <= r <= |text| && HasAt(text, r, pat)
    decreases |text| - i
  {
    if HasAt(text, i, pat) then i
    else if i == |text| then -1
    else FindFrom(text, pat, i + 1)
  }

  predicate Contains(text: string, pat: string)
  {
    FindFrom(text, pat, 0) != -1
  }

  /** ASCII lower-casing. */
  function LowerAscii(c: char): char
  {
    if 'A' <= c <= 'Z' then (c as int + 32) as char else c
  }

  /**
   Whether text character `c` matches the ASCII pattern character `p` under `re.IGNORECASE`
   on a `str` pattern: equal after lower-casing, plus the four non-ASCII letters Python's
   engine also equates with ASCII ones (U+0130 and U+0131 with `i`, U+212A with `k`,
   U+017F with `s`).
   */
  predicate FoldEq(c: char, p: char)
  {
    || LowerAscii(c) == LowerAscii(p)
    || (LowerAscii(p) == 'i' && (c == '\U{0130}' || c == '\U{0131}'))
    || (LowerAscii(p) == 'k' && c == '\U{212A}')
    || (LowerAscii(p) == 's' && c == '\U{017F}')
  }

  predicate HasAtFold(text: string, p: nat, pat: string)
  {
    p + |pat| <= |text| && forall i | 0 <= i < |pat| :: FoldEq(text[p + i], pat[i])
  }

  predicate EndsWithFold(s: string, suf: string)
  {
    |suf| <= |s| && forall i | 0 <= i < |suf| :: FoldEq(s[|s| - |suf| + i], suf[i])
  }

  /** Python's `\s` on `str` patterns: the characters for which `str.isspace()` holds. */
  predicate IsSpace(c: char)
  {
    || '\t' <= c <= '\r'
    || '\U{001C}' <= c <= ' '
    || c == '\U{0085}' || c == '\U{00A0}' || c == '\U{1680}'
    || '\U{2000}' <= c <= '\U{200A}'
    || c == '\U{2028}' || c == '\U{2029}' || c == '\U{202F}' || c == '\U{205F}' || c == '\U{3000}'
  }

  /** The class `[a-zA-Z_$]`. */
  predicate IsIdentStart(c: char)
  {
    'a' <= c <= 'z' || 'A' <= c <= 'Z' || c == '_' || c == '$'
  }

  /** The class `[a-zA-Z0-9_$]`. */
  predicate IsIdentChar(c: char)
  {
    IsIdentStart(c) || '0' <= c <= '9'
  }

  /** A full match of `[a-zA-Z_$][a-zA-Z0-9_$]*`. */
  predicate IsIdentifier(s: string)
  {
    |s| > 0 && IsIdentStart(s[0]) && forall i | 0 < i < |s| :: IsIdentChar(s[i])
  }

  /** End of the maximal run of `[^"']` starting at `i` (what a greedy `[^"']*` consumes). */
  function RunEnd(text: string, i: nat): (e: nat)
    requires i <= |text|
    ensures i <= e <= |text|
    ensures forall j | i <= j < e :: !IsQuote(text[j])
    ensures e < |text| ==> IsQuote(text[e])
    decreases |text| - i
  {
    if i == |text| || IsQuote(text[i]) then i else RunEnd(text, i + 1)
  }

  /** A quote-free stretch followed by a quote is the whole run. */
  lemma RunEndIs(text: string, i: nat, e: nat)
    requires i <= e < |text| && QuoteFree(text[i..e]) && IsQuote(text[e])
    ensures RunEnd(text, i) == e
  {
    forall j | i <= j < e
      ensures !IsQuote(text[j])
    {
      assert text[i..e][j - i] == text[j];
    }
  }

  /** End of the maximal run of `\s` starting at `i`. */
  function SpaceEnd(text: string, i: nat): (e: nat)
    requires i <= |text|
    ensures i <= e <= |text|
    ensures forall j | i <= j < e :: IsSpace(text[j])
    ensures e < |text| ==> !IsSpace(text[e])
    decreases |text| - i
  {
    if i == |text| || !IsSpace(text[i]) then i else SpaceEnd(text, i + 1)
  }

  /** End of the maximal run of `[a-zA-Z0-9_$]` starting at `i`. */
  function IdentEnd(text: string, i: nat): (e: nat)
    requires i <= |text|
    ensures i <= e <= |text|
    ensures forall j | i <= j < e :: IsIdentChar(text[j])
    ensures e < |text| ==> !IsIdentChar(text[e])
    decreases |text| - i
  {
    if i == |text| || !IsIdentChar(text[i]) then i else IdentEnd(text, i + 1)
  }

  /** End of the maximal run of `[^>]` starting at `i`: the first `>` at or after `i`, or the end. */
  function GtFrom(text: string, i: nat): (g: nat)
    requires i <= |text|
    ensures i <= g <= |text|
    ensures forall j | i <= j < g :: text[j] != '>'
    ensures g < |text| ==> text[g] == '>'
    decreases |text| - i
  {
    if i == |text| || text[i] == '>' then i else GtFrom(text, i + 1)
  }
}
