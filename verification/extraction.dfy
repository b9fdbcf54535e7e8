/**
 `extract_links_from_html` (comprehensive_link_checker.py:65-115): seven scans of the page
 text, one per category, each list in order of appearance, duplicates kept.
 */
module LinkExtraction {
  import opened Wrappers
  import opened Text
  import opened Patterns
  import opened Scanner

  /** The seven lists of the result dictionary; the datatype fixes the set of keys. */
  datatype Links = Links(
    external: seq<string>,
    internal: seq<string>,
    onclick: seq<string>,
    formActions: seq<string>,
    images: seq<string>,
    scripts: seq<string>,
    css: seq<string>)
  {
    /** `sum(len(v) for v in links.values())`. */
    function TotalLinks(): nat
    {
      |external| + |internal| + |onclick| + |formActions| + |images| + |scripts| + |css|
    }

    predicate IsEmpty()
    {
      external == internal == onclick == formActions == images == scripts == css == []
    }
  }

  /** The filter applied to each internal-pattern capture before it is kept. */
  predicate KeptInternal(link: string)
  {
    |link| > 0 && !StartsWith(link, "mailto:") && !StartsWith(link, "tel:")
  }

  /** Keeps the captures that pass `KeptInternal`, in their original order. */
  function KeepInternal(vs: seq<string>): (r: seq<string>)
    ensures |r| <= |vs|
    ensures forall v :: v in r <==> v in vs && KeptInternal(v)
  {
    if vs == [] then []
    else if KeptInternal(vs[0]) then [vs[0]] + KeepInternal(vs[1..])
    else KeepInternal(vs[1..])
  }

  /** The filter keeps order: filtering a concatenation concatenates the filtered parts. */
  lemma {:induction false} KeepInternalAppend(a: seq<string>, b: seq<string>)
    ensures KeepInternal(a + b) == KeepInternal(a) + KeepInternal(b)
  {
    if a != [] {
      assert (a + b)[1..] == a[1..] + b;
      KeepInternalAppend(a[1..], b);
    } else {
      assert a + b == b;
    }
  }

  /** Every internal link is a non-empty, quote-free reference that is not absolute http(s), mail or phone. */
  predicate IsInternalLink(v: string)
  {
    && |v| > 0 && QuoteFree(v)
    && !StartsWith(v, "http://") && !StartsWith(v, "https://")
    && !StartsWith(v, "mailto:") && !StartsWith(v, "tel:")
  }

  function ExternalLinks(text: string): (r: seq<string>)
    ensures forall i | 0 <= i < |r| ::
      QuoteFree(r[i]) && (StartsWith(r[i], "http://") || StartsWith(r[i], "https://"))
  {
    var vs := FindValues(ExternalHref, text);
    assert forall i | 0 <= i < |vs| :: ValueShape(ExternalHref, vs[i]);
    vs
  }

  function InternalLinks(text: string): (r: seq<string>)
    ensures forall i | 0 <= i < |r| :: IsInternalLink(r[i])
  {
    var vs := FindValues(InternalHref, text);
    var r := KeepInternal(vs);
    forall i | 0 <= i < |r|
      ensures IsInternalLink(r[i])
    {
      assert r[i] in vs;
      var j :| 0 <= j < |vs| && vs[j] == r[i];
      assert ValueShape(InternalHref, vs[j]);
    }
    r
  }

  function OnclickHandlers(text: string): (r: seq<string>)
    ensures forall i | 0 <= i < |r| :: |r[i]| > 0 && QuoteFree(r[i])
  {
    var vs := FindValues(OnclickAttr, text);
    assert forall i | 0 <= i < |vs| :: ValueShape(OnclickAttr, vs[i]);
    vs
  }

  function FormActions(text: string): (r: seq<string>)
    ensures forall i | 0 <= i < |r| :: |r[i]| > 0 && QuoteFree(r[i])
  {
    var vs := FindValues(FormAction, text);
    assert forall i | 0 <= i < |vs| :: ValueShape(FormAction, vs[i]);
    vs
  }

  function ScriptSources(text: string): (r: seq<string>)
    ensures forall i | 0 <= i < |r| :: |r[i]| > 0 && QuoteFree(r[i])
  {
    var vs := FindValues(ScriptSrc, text);
    assert forall i | 0 <= i < |vs| :: ValueShape(ScriptSrc, vs[i]);
    vs
  }

  function ImageSources(text: string): (r: seq<string>)
    ensures forall i | 0 <= i < |r| :: QuoteFree(r[i]) && HasImageExt(r[i])
  {
    var vs := FindValues(ImageSrc, text);
    assert forall i | 0 <= i < |vs| :: ValueShape(ImageSrc, vs[i]);
    vs
  }

  function CssLinks(text: string): (r: seq<string>)
    ensures forall i | 0 <= i < |r| :: QuoteFree(r[i]) && EndsWith(r[i], ".css")
  {
    var vs := FindValues(CssHref, text);
    assert forall i | 0 <= i < |vs| :: ValueShape(CssHref, vs[i]);
    vs
  }

  function ExtractLinks(text: string): (r: Links)
    ensures forall i | 0 <= i < |r.external| ::
      && QuoteFree(r.external[i])
      && (StartsWith(r.external[i], "http://") || StartsWith(r.external[i], "https://"))
    ensures forall i | 0 <= i < |r.internal| :: IsInternalLink(r.internal[i])
    ensures forall i | 0 <= i < |r.onclick| :: |r.onclick[i]| > 0 && QuoteFree(r.onclick[i])
    ensures forall i | 0 <= i < |r.formActions| :: |r.formActions[i]| > 0 && QuoteFree(r.formActions[i])
    ensures forall i | 0 <= i < |r.images| :: QuoteFree(r.images[i]) && HasImageExt(r.images[i])
    ensures forall i | 0 <= i < |r.scripts| :: |r.scripts[i]| > 0 && QuoteFree(r.scripts[i])
    ensures forall i | 0 <= i < |r.css| :: QuoteFree(r.css[i]) && EndsWith(r.css[i], ".css")
  {
    Links(
      ExternalLinks(text),
      InternalLinks(text),
      OnclickHandlers(text),
      FormActions(text),
      ImageSources(text),
      ScriptSources(text),
      CssLinks(text))
  }

  /** The captured values of a pattern are those of the one left-to-right scan that meets `IsScan`. */
  lemma ValuesOfScan(pat: Pattern, text: string, ms: seq<Match>)
    requires IsScan(PatternMatcher(pat), text, 0, ms)
    ensures FindValues(pat, text) == Values(ms)
  {
    PatternMatcherAdvances(pat, text);
    ScanCharacterization(PatternMatcher(pat), text, 0, ms);
  }

  /** The list of the result that the expression `pat` fills. */
  function Field(r: Links, pat: Pattern): seq<string>
  {
    match pat
    case ExternalHref => r.external
    case InternalHref => r.internal
    case OnclickAttr => r.onclick
    case FormAction => r.formActions
    case ImageSrc => r.images
    case ScriptSrc => r.scripts
    case CssHref => r.css
    case FunctionDef => []
  }

  /**
   Each list is the values of the one declarative scan of its expression over the page;
   the internal list is that, filtered by `KeptInternal`.
   */
  lemma ExtractLinksIsScan(text: string, pat: Pattern, ms: seq<Match>)
    requires pat != FunctionDef
    requires IsScan(PatternMatcher(pat), text, 0, ms)
    ensures Field(ExtractLinks(text), pat) == if pat == InternalHref then KeepInternal(Values(ms)) else Values(ms)
  {
    ValuesOfScan(pat, text, ms);
    match pat
    case ExternalHref => assert ExternalLinks(text) == Values(ms);
    case InternalHref => assert InternalLinks(text) == KeepInternal(Values(ms));
    case OnclickAttr => assert OnclickHandlers(text) == Values(ms);
    case FormAction => assert FormActions(text) == Values(ms);
    case ImageSrc => assert ImageSources(text) == Values(ms);
    case ScriptSrc => assert ScriptSources(text) == Values(ms);
    case CssHref => assert CssLinks(text) == Values(ms);
  }

  /** The matches behind the external list, in order. */
  function ExternalMatches(text: string): (ms: seq<Match>)
    ensures forall i | 0 <= i < |ms| :: QuotedMatch(ExternalHref, text, ms[i]) && ms[i].at == ms[i].start
    ensures Values(ms) == ExternalLinks(text)
  {
    PatternMatcherAdvances(ExternalHref, text);
    var ms := FindAll(PatternMatcher(ExternalHref), text, 0);
    assert forall i | 0 <= i < |ms| :: MatchAt(ExternalHref, text, ms[i].start) == Some(ms[i]);
    ms
  }

  /**
   The source takes each external link as the whole match with its first six characters
   (`href=` and the opening quote) and its last one (the closing quote) cut off; that is
   the same string as the captured value.
   */
  lemma ExternalIsTrimmedMatch(text: string, i: nat)
    requires i < |ExternalMatches(text)|
    ensures var m := ExternalMatches(text)[i];
      && m.start + 6 <= m.end - 1 < |text|
      && HasAt(text, m.start, "href=") && IsQuote(text[m.start + 5]) && IsQuote(text[m.end - 1])
      && ExternalLinks(text)[i] == text[m.start + 6..m.end - 1]
  {
    var ms := ExternalMatches(text);
    var m := ms[i];
    TrimmedMatch(text, m);
    assert ExternalLinks(text)[i] == m.value by {
      assert Values(ms)[i] == m.value;
    }
  }

  lemma TrimmedMatch(text: string, m: Match)
    requires QuotedMatch(ExternalHref, text, m) && m.at == m.start
    ensures HasAt(text, m.start, "href=") && IsQuote(text[m.start + 5]) && IsQuote(text[m.end - 1])
    ensures m.start + 6 <= m.end - 1 && m.value == text[m.start + 6..m.end - 1]
  {
  }

  ghost predicate ContainsFold(text: string, pat: string)
  {
    exists j | 0 <= j <= |text| :: HasAtFold(text, j, pat)
  }

  lemma FoldedOccurrence(text: string, pat: string)
    requires Contains(text, pat)
    ensures ContainsFold(text, pat)
  {
    var j := FindFrom(text, pat, 0);
    forall i | 0 <= i < |pat|
      ensures FoldEq(text[j + i], pat[i])
    {
      assert text[j + i] == text[j..j + |pat|][i];
    }
    assert HasAtFold(text, j, pat);
  }

  /** Without the attribute name (in any case, for `src=` of images) no position starts it. */
  lemma NoAttributeAnywhere(pat: Pattern, text: string)
    requires pat != FunctionDef
    requires pat == ImageSrc ==> !ContainsFold(text, AttrName(pat))
    requires pat != ImageSrc ==> !Contains(text, AttrName(pat))
    ensures forall q | 0 <= q <= |text| :: !AttrAt(pat, text, q)
  {
  }

  /** A position without an attribute tail anywhere after it matches nothing. */
  lemma NoTailNoMatch(pat: Pattern, text: string, p: nat)
    requires pat != FunctionDef && p <= |text|
    requires forall q | 0 <= q <= |text| :: !AttrAt(pat, text, q)
    ensures MatchAt(pat, text, p).None?
  {
    if Anchored(pat) && HasAt(text, p, Lead(pat)) {
      var lt := LastWhere(TailOk(pat, text), p + |Lead(pat)|, WindowEnd(pat, text, p));
      assert lt.None?;
    }
  }

  lemma NoAttributeNoMatch(pat: Pattern, text: string)
    requires pat != FunctionDef
    requires pat == ImageSrc ==> !ContainsFold(text, AttrName(pat))
    requires pat != ImageSrc ==> !Contains(text, AttrName(pat))
    ensures NoMatchIn(PatternMatcher(pat), text, 0, |text|)
  {
    NoAttributeAnywhere(pat, text);
    forall p | 0 <= p < |text|
      ensures PatternMatcher(pat)(text, p).None?
    {
      NoTailNoMatch(pat, text, p);
    }
  }

  lemma NoValues(pat: Pattern, text: string)
    requires pat != FunctionDef
    requires pat == ImageSrc ==> !ContainsFold(text, AttrName(pat))
    requires pat != ImageSrc ==> !Contains(text, AttrName(pat))
    ensures FindValues(pat, text) == []
  {
    NoAttributeNoMatch(pat, text);
    PatternMatcherAdvances(pat, text);
    NothingFoundIff(PatternMatcher(pat), text);
  }

  /**
   A page without `href=`, `onclick=`, `action=` and (in any case) `src=` yields seven
   empty lists and a total of 0.
   */
  lemma NoAttributesNoLinks(text: string)
    requires !Contains(text, "href=") && !Contains(text, "onclick=") && !Contains(text, "action=")
    requires !ContainsFold(text, "src=")
    ensures ExtractLinks(text).IsEmpty() && ExtractLinks(text).TotalLinks() == 0
  {
    NoValues(ExternalHref, text);
    NoValues(InternalHref, text);
    NoValues(OnclickAttr, text);
    NoValues(FormAction, text);
    NoValues(ImageSrc, text);
    if Contains(text, "src=") {
      FoldedOccurrence(text, "src=");
    }
    NoValues(ScriptSrc, text);
    NoValues(CssHref, text);
  }}
