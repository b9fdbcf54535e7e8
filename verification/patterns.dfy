/**
 One attempt of each regular expression of the link extractor at one position of the page.

 The eight expressions (comprehensive_link_checker.py, lines 78-111 and 247-252):
   ExternalHref  href=["']https?://([^"']+)["']
   InternalHref  href=["'](?!https?://)([^"']+)["']
   OnclickAttr   onclick=["']([^"']+)["']
   FormAction    <form[^>]*action=["']([^"']+)["']
   ImageSrc      src=["']([^"']+\.(jpg|jpeg|png|gif|svg|webp))["']      (case-insensitive)
   ScriptSrc     <script[^>]*src=["']([^"']+)["']
   CssHref       <link[^>]*href=["']([^"']+\.css)["']
   FunctionDef   function\s+([a-zA-Z_$][a-zA-Z0-9_$]*)\s*\(

 Backtracking is resolved once here instead of being simulated:
 - a `[^"']+` that must be followed by a quote (possibly after a literal `.ext`) can only
   match the whole maximal quote-free run, and only when a quote follows it;
 - `<tag[^>]*attr=...` tries the attribute at the LAST position before the first `>` first,
   so the match uses the greatest such position where the rest of the expression matches.
 The opening and the closing quote are independent members of `["']`.
 */
module Patterns {
  import opened Wrappers
  import opened Text

  datatype Pattern =
    | ExternalHref
    | InternalHref
    | OnclickAttr
    | FormAction
    | ImageSrc
    | ScriptSrc
    | CssHref
    | FunctionDef

  /**
   One match: it spans `text[start..end]`, the captured value is `value`, and `at` is where the
   attribute name (or the defined name, for FunctionDef) begins.
   */
  datatype Match = Match(start: nat, at: nat, end: nat, value: string)

  /** The `<tag` that precedes `[^>]*` in the three tag-anchored expressions, or "". */
  function Lead(pat: Pattern): string
  {
    match pat
    case FormAction => "<form"
    case ScriptSrc => "<script"
    case CssHref => "<link"
    case _ => ""
  }

  predicate Anchored(pat: Pattern)
  {
    pat == FormAction || pat == ScriptSrc || pat == CssHref
  }

  /** The literal `name=` before the opening quote. */
  function AttrName(pat: Pattern): string
  {
    match pat
    case ExternalHref => "href="
    case InternalHref => "href="
    case OnclickAttr => "onclick="
    case FormAction => "action="
    case ImageSrc => "src="
    case ScriptSrc => "src="
    case CssHref => "href="
    case FunctionDef => "function"
  }

  const ImageExtensions: seq<string> := ["jpg", "jpeg", "png", "gif", "svg", "webp"]

  /** `v` matches `[^"']+\.ext` for `ext` one of the image extensions, ignoring case. */
  predicate HasImageExt(v: string)
  {
    exists k | 0 <= k < |ImageExtensions| :: HasExt(v, ImageExtensions[k])
  }

  /** At least one character, then `.`, then `ext` (ignoring case) at the very end. */
  predicate HasExt(v: string, ext: string)
  {
    |v| >= |ext| + 2 && v[|v| - |ext| - 1] == '.' && EndsWithFold(v, ext)
  }

  /** The condition each expression puts on the quote-free run `text[vs..ve]`. */
  predicate Accepts(pat: Pattern, text: string, vs: nat, ve: nat)
    requires vs <= ve <= |text|
  {
    match pat
    case ExternalHref =>
      (HasAt(text, vs, "http://") && ve > vs + 7) || (HasAt(text, vs, "https://") && ve > vs + 8)
    case InternalHref =>
      // the lookahead (?!https?://) reads the text, not the run
      ve > vs && !HasAt(text, vs, "http://") && !HasAt(text, vs, "https://")
    case ImageSrc => HasImageExt(text[vs..ve])
    case CssHref => ve - vs >= 5 && EndsWith(text[vs..ve], ".css")
    case _ => ve > vs
  }

  /** What every captured value of `pat` looks like. */
  predicate ValueShape(pat: Pattern, v: string)
  {
    match pat
    case ExternalHref =>
      QuoteFree(v) && ((StartsWith(v, "http://") && |v| > 7) || (StartsWith(v, "https://") && |v| > 8))
    case InternalHref =>
      QuoteFree(v) && |v| > 0 && !StartsWith(v, "http://") && !StartsWith(v, "https://")
    case ImageSrc => QuoteFree(v) && HasImageExt(v)
    case CssHref => QuoteFree(v) && |v| >= 5 && EndsWith(v, ".css")
    case FunctionDef => IsIdentifier(v)
    case _ => QuoteFree(v) && |v| > 0
  }

  /** A quote-free prefix that is followed by a quote lies inside the maximal run. */
  lemma PrefixInsideRun(text: string, vs: nat, ve: nat, pre: string)
    requires vs <= ve < |text| && IsQuote(text[ve])
    requires forall j | vs <= j < ve :: !IsQuote(text[j])
    requires QuoteFree(pre) && HasAt(text, vs, pre)
    ensures StartsWith(text[vs..ve], pre)
  {
    assert text[vs..ve][..|pre|] == text[vs..vs + |pre|];
  }

  /** On a maximal quote-free run, `Accepts` is exactly the value shape of the run. */
  lemma AcceptsShape(pat: Pattern, text: string, vs: nat, ve: nat)
    requires pat != FunctionDef
    requires vs <= ve < |text| && IsQuote(text[ve])
    requires forall j | vs <= j < ve :: !IsQuote(text[j])
    ensures Accepts(pat, text, vs, ve) <==> ValueShape(pat, text[vs..ve])
  {
    var v := text[vs..ve];
    assert QuoteFree(v);
    assert QuoteFree("http://") && QuoteFree("https://");
    if HasAt(text, vs, "http://") {
      PrefixInsideRun(text, vs, ve, "http://");
    }
    if HasAt(text, vs, "https://") {
      PrefixInsideRun(text, vs, ve, "https://");
    }
    if StartsWith(v, "http://") {
      assert text[vs..vs + 7] == v[..7];
    }
    if StartsWith(v, "https://") {
      assert text[vs..vs + 8] == v[..8];
    }
  }

  /** The attribute name of `pat` at `q`, ignoring case for the one case-insensitive expression. */
  predicate AttrAt(pat: Pattern, text: string, q: nat)
  {
    if pat == ImageSrc then HasAtFold(text, q, AttrName(pat)) else HasAt(text, q, AttrName(pat))
  }

  /**
   The part of an attribute expression after `<tag[^>]*`, tried at `q`: the attribute
   name, a quote, the run, a quote. Yields the index of the closing quote.
   */
  function TailAt(pat: Pattern, text: string, q: nat): (r: Option<nat>)
    requires pat != FunctionDef && q <= |text|
    ensures r.Some? ==> AttrAt(pat, text, q)
    ensures r.Some? ==>
      && q + |AttrName(pat)| + 1 <= r.value < |text|
      && IsQuote(text[q + |AttrName(pat)|])
      && IsQuote(text[r.value])
      && ValueShape(pat, text[q + |AttrName(pat)| + 1..r.value])
  {
    var a := AttrName(pat);
    if !AttrAt(pat, text, q) || q + |a| >= |text| || !IsQuote(text[q + |a|]) then None
    else
      var vs := q + |a| + 1;
      var ve := RunEnd(text, vs);
      if ve < |text| && Accepts(pat, text, vs, ve) then
        AcceptsShape(pat, text, vs, ve);
        Some(ve)
      else None
  }

  /** Where the tail of `pat` matches in `text`. */
  function TailOk(pat: Pattern, text: string): nat -> bool
  {
    (q: nat) => pat != FunctionDef && q <= |text| && TailAt(pat, text, q).Some?
  }

  /**
   The greedy `[^>]*`: the greatest position in `[lo, q]` where `ok` holds.
   Backtracking tries `q` first and gives back one character at a time.
   */
  function LastWhere(ok: nat -> bool, lo: nat, q: nat): (r: Option<nat>)
    requires lo <= q
    ensures r.Some? ==> lo <= r.value <= q && ok(r.value)
    ensures r.Some? ==> forall q' | r.value < q' <= q :: !ok(q')
    ensures r.None? ==> forall q' | lo <= q' <= q :: !ok(q')
    decreases q
  {
    if ok(q) then Some(q)
    else if q == lo then None
    else LastWhere(ok, lo, q - 1)
  }

  /** The window `[lo, hi]` in which a tag-anchored expression may place its attribute. */
  function WindowEnd(pat: Pattern, text: string, p: nat): nat
    requires p + |Lead(pat)| <= |text|
  {
    GtFrom(text, p + |Lead(pat)|)
  }

  /** The facts every match of an attribute expression has: value between two quotes, right before the end. */
  predicate QuotedMatch(pat: Pattern, text: string, m: Match)
    requires pat != FunctionDef
  {
    && AttrAt(pat, text, m.at)
    && m.at + |AttrName(pat)| + 1 + |m.value| + 1 == m.end <= |text|
    && IsQuote(text[m.end - 1 - |m.value| - 1])
    && IsQuote(text[m.end - 1])
    && m.value == text[m.end - 1 - |m.value|..m.end - 1]
  }

  /** The match built from a successful tail at `q`, for an attempt that started at `p`. */
  function TailMatch(pat: Pattern, text: string, p: nat, q: nat): (m: Match)
    requires pat != FunctionDef && p <= q <= |text| && TailAt(pat, text, q).Some?
    ensures m.start == p && m.at == q && q < m.end
    ensures QuotedMatch(pat, text, m) && ValueShape(pat, m.value)
  {
    var ve := TailAt(pat, text, q).value;
    QuotedTail(pat, text, p, q, ve);
    Match(p, q, ve + 1, text[q + |AttrName(pat)| + 1..ve])
  }

  /** The facts of a successful tail, restated on the match it yields. */
  lemma QuotedTail(pat: Pattern, text: string, p: nat, q: nat, ve: nat)
    requires pat != FunctionDef && AttrAt(pat, text, q)
    requires q + |AttrName(pat)| + 1 <= ve < |text|
    requires IsQuote(text[q + |AttrName(pat)|]) && IsQuote(text[ve])
    ensures QuotedMatch(pat, text, Match(p, q, ve + 1, text[q + |AttrName(pat)| + 1..ve]))
  {
    var vs := q + |AttrName(pat)| + 1;
    var v := text[vs..ve];
    assert ve + 1 - 1 - |v| == vs;
  }

  /** One attempt of `pat` at position `p` (what `re.match(pat, text, pos=p)` returns). */
  function MatchAt(pat: Pattern, text: string, p: nat): (r: Option<Match>)
    requires p <= |text|
    ensures r.Some? ==> r.value.start == p && p <= r.value.at && p < r.value.end <= |text|
    ensures r.Some? ==> ValueShape(pat, r.value.value)
    ensures r.Some? && pat != FunctionDef ==> QuotedMatch(pat, text, r.value)
    ensures r.Some? && !Anchored(pat) && pat != FunctionDef ==> r.value.at == p
  {
    if pat == FunctionDef then FunctionDefAt(text, p)
    else if !Anchored(pat) then
      if TailAt(pat, text, p).Some? then Some(TailMatch(pat, text, p, p)) else None
    else AnchoredAt(pat, text, p)
  }

  /** `<tag[^>]*` followed by the tail: the tail is placed as late as possible before the first `>`. */
  function AnchoredAt(pat: Pattern, text: string, p: nat): (r: Option<Match>)
    requires Anchored(pat) && p <= |text|
    ensures r.Some? ==> r.value.start == p && p < r.value.at < r.value.end <= |text|
    ensures r.Some? ==> QuotedMatch(pat, text, r.value) && ValueShape(pat, r.value.value)
  {
    if !HasAt(text, p, Lead(pat)) then None
    else
      match LastWhere(TailOk(pat, text), p + |Lead(pat)|, WindowEnd(pat, text, p))
      case None => None
      case Some(q) => Some(TailMatch(pat, text, p, q))
  }

  /**
   The declarative reading of an attribute tail at `q`: the attribute name, a quote, a
   quote-free value of the expression's shape ending at `ve`, and a quote at `ve`.
   */
  ghost predicate QuotedValueAt(pat: Pattern, text: string, q: nat, ve: nat)
    requires pat != FunctionDef
  {
    var vs := q + |AttrName(pat)| + 1;
    && AttrAt(pat, text, q)
    && vs <= ve < |text|
    && IsQuote(text[vs - 1]) && IsQuote(text[ve])
    && QuoteFree(text[vs..ve])
    && ValueShape(pat, text[vs..ve])
  }

  /** Some quoted value of the right shape follows the attribute name at `q`. */
  ghost predicate HasQuotedValue(pat: Pattern, text: string, q: nat)
    requires pat != FunctionDef
  {
    exists ve: nat :: QuotedValueAt(pat, text, q, ve)
  }

  /** A successful tail ends a quoted value of the right shape. */
  lemma TailAtSound(pat: Pattern, text: string, q: nat)
    requires pat != FunctionDef && q <= |text| && TailAt(pat, text, q).Some?
    ensures QuotedValueAt(pat, text, q, TailAt(pat, text, q).value)
  {
    var ve := TailAt(pat, text, q).value;
    var vs := q + |AttrName(pat)| + 1;
    assert QuoteFree(text[vs..ve]);
  }

  /** A quoted value of the right shape after the attribute name is the tail's match. */
  lemma TailAtComplete(pat: Pattern, text: string, q: nat, ve: nat)
    requires pat != FunctionDef && q <= |text| && QuotedValueAt(pat, text, q, ve)
    ensures TailAt(pat, text, q) == Some(ve)
  {
    var a := AttrName(pat);
    var vs := q + |a| + 1;
    RunEndIs(text, vs, ve);
    AcceptsShape(pat, text, vs, ve);
    assert AttrAt(pat, text, q) && q + |a| < |text| && IsQuote(text[q + |a|]);
    assert Accepts(pat, text, vs, ve);
  }

  /** The tail matches at `q` exactly when some quoted value of the right shape follows the name there. */
  lemma TailAtIff(pat: Pattern, text: string, q: nat)
    requires pat != FunctionDef && q <= |text|
    ensures TailAt(pat, text, q).Some? <==> HasQuotedValue(pat, text, q)
  {
    if TailAt(pat, text, q).Some? {
      TailAtSound(pat, text, q);
    }
    if HasQuotedValue(pat, text, q) {
      var ve: nat :| QuotedValueAt(pat, text, q, ve);
      TailAtComplete(pat, text, q, ve);
    }
  }

  /** An attempt of a plain attribute expression succeeds exactly when its shape is present at `p`. */
  lemma PlainMatchIff(pat: Pattern, text: string, p: nat)
    requires pat != FunctionDef && !Anchored(pat) && p <= |text|
    ensures MatchAt(pat, text, p).Some? <==> HasQuotedValue(pat, text, p)
  {
    TailAtIff(pat, text, p);
  }

  /** Over a window, the greedy choice is the last position where the declarative shape is present. */
  lemma LastTailIff(pat: Pattern, text: string, lo: nat, hi: nat)
    requires pat != FunctionDef && lo <= hi <= |text|
    ensures LastWhere(TailOk(pat, text), lo, hi).Some? <==>
      exists q: nat | lo <= q <= hi :: HasQuotedValue(pat, text, q)
  {
    forall q: nat | lo <= q <= hi
      ensures TailOk(pat, text)(q) <==> HasQuotedValue(pat, text, q)
    {
      TailAtIff(pat, text, q);
    }
  }

  /** The greedy choice has the shape, and no later position in the window has it. */
  lemma LastTailGreedy(pat: Pattern, text: string, lo: nat, hi: nat, q0: nat)
    requires pat != FunctionDef && lo <= hi <= |text|
    requires LastWhere(TailOk(pat, text), lo, hi).Some? && LastWhere(TailOk(pat, text), lo, hi).value == q0
    ensures HasQuotedValue(pat, text, q0)
    ensures forall q: nat | q0 < q <= hi :: !HasQuotedValue(pat, text, q)
  {
    assert TailAt(pat, text, q0).Some?;
    TailAtIff(pat, text, q0);
    forall q: nat | q0 < q <= hi
      ensures !HasQuotedValue(pat, text, q)
    {
      assert !TailOk(pat, text)(q);
      TailAtIff(pat, text, q);
    }
  }

  /** A tag-anchored attempt is decided by the greedy choice over the window before the first `>`. */
  lemma AnchoredIsLast(pat: Pattern, text: string, p: nat)
    requires Anchored(pat) && p <= |text|
    ensures AnchoredAt(pat, text, p).Some? <==>
      HasAt(text, p, Lead(pat))
      && LastWhere(TailOk(pat, text), p + |Lead(pat)|, GtFrom(text, p + |Lead(pat)|)).Some?
    ensures AnchoredAt(pat, text, p).Some? ==>
      AnchoredAt(pat, text, p).value.at ==
      LastWhere(TailOk(pat, text), p + |Lead(pat)|, GtFrom(text, p + |Lead(pat)|)).value
  {
  }

  /**
   An attempt of a tag-anchored expression succeeds exactly when `<tag` is at `p` and the
   attribute shape is at some position before the first `>`.
   */
  lemma AnchoredMatchIff(pat: Pattern, text: string, p: nat)
    requires Anchored(pat) && p <= |text|
    ensures AnchoredAt(pat, text, p).Some? <==>
      && HasAt(text, p, Lead(pat))
      && exists q: nat | p + |Lead(pat)| <= q <= GtFrom(text, p + |Lead(pat)|) :: HasQuotedValue(pat, text, q)
  {
    AnchoredIsLast(pat, text, p);
    if HasAt(text, p, Lead(pat)) {
      LastTailIff(pat, text, p + |Lead(pat)|, GtFrom(text, p + |Lead(pat)|));
    }
  }

  /** A successful tag-anchored attempt places the attribute at the last position before the first `>` that has the shape. */
  lemma AnchoredMatchGreedy(pat: Pattern, text: string, p: nat)
    requires Anchored(pat) && p <= |text|
    requires AnchoredAt(pat, text, p).Some?
    ensures HasQuotedValue(pat, text, AnchoredAt(pat, text, p).value.at)
    ensures forall q: nat | AnchoredAt(pat, text, p).value.at < q <= GtFrom(text, p + |Lead(pat)|) ::
      !HasQuotedValue(pat, text, q)
  {
    AnchoredIsLast(pat, text, p);
    var lo := p + |Lead(pat)|;
    LastTailGreedy(pat, text, lo, GtFrom(text, lo), AnchoredAt(pat, text, p).value.at);
  }

  /** `function\s+NAME\s*\(` at `p`; every quantifier is greedy and none can give anything back. */
  function FunctionDefAt(text: string, p: nat): (r: Option<Match>)
    requires p <= |text|
    ensures r.Some? ==> r.value.start == p && p + 8 < r.value.at
    ensures r.Some? ==> r.value.at + |r.value.value| < r.value.end <= |text|
    ensures r.Some? ==>
      && HasAt(text, p, "function")
      && (forall j | p + 8 <= j < r.value.at :: IsSpace(text[j]))
      && r.value.value == text[r.value.at..r.value.at + |r.value.value|]
      && IsIdentifier(r.value.value)
      && text[r.value.end - 1] == '('
  {
    if !HasAt(text, p, "function") then None
    else
      var w := SpaceEnd(text, p + 8);
      if w == p + 8 || w == |text| || !IsIdentStart(text[w]) then None
      else
        var e := IdentEnd(text, w + 1);
        var k := SpaceEnd(text, e);
        if k < |text| && text[k] == '(' then Some(Match(p, w, k + 1, text[w..e])) else None
  }
}
