/**
 `re.finditer` / `re.findall` over one of the expressions of `Patterns`: scan left to right,
 take the match that starts first, resume right after it, and move one character on when
 no match starts at the current position. No expression here can match the empty string,
 so Python's special rule for empty matches never applies.
 */
module Scanner {
  import opened Wrappers
  import opened Patterns

  /** One regular-expression attempt: the match starting at a position, if any. */
  type Matcher = (string, nat) -> Option<Match>

  /** Every match the matcher reports starts where it was tried and is non-empty. */
  ghost predicate Advances(f: Matcher, text: string)
  {
    forall p: nat | p <= |text| :: f(text, p).Some? ==> f(text, p).value.start == p < f(text, p).value.end <= |text|
  }

  /** The matcher of one expression of `Patterns`. */
  function PatternMatcher(pat: Pattern): Matcher
  {
    (t: string, p: nat) => if p <= |t| then MatchAt(pat, t, p) else None
  }

  lemma PatternMatcherAdvances(pat: Pattern, text: string)
    ensures Advances(PatternMatcher(pat), text)
  {
  }

  /** All matches of `pat` in `text[pos..]`, in order of appearance. */
  function FindAll(f: Matcher, text: string, pos: nat): (ms: seq<Match>)
    requires pos <= |text| && Advances(f, text)
    ensures forall i | 0 <= i < |ms| :: pos <= ms[i].start < |text| && f(text, ms[i].start) == Some(ms[i])
    ensures forall i | 0 <= i < |ms| - 1 :: ms[i].end <= ms[i + 1].start
    decreases |text| - pos
  {
    if pos == |text| then []
    else
      match f(text, pos)
      case Some(m) => [m] + FindAll(f, text, m.end)
      case None => FindAll(f, text, pos + 1)
  }

  /** The captured values of a list of matches (what `re.findall` returns for one group). */
  function Values(ms: seq<Match>): (vs: seq<string>)
    ensures |vs| == |ms|
    ensures forall i | 0 <= i < |ms| :: vs[i] == ms[i].value
  {
    if ms == [] then [] else [ms[0].value] + Values(ms[1..])
  }

  /** The captured values of all matches of `pat` in the whole text. */
  function FindValues(pat: Pattern, text: string): (vs: seq<string>)
    ensures forall i | 0 <= i < |vs| :: ValueShape(pat, vs[i])
  {
    PatternMatcherAdvances(pat, text);
    var ms := FindAll(PatternMatcher(pat), text, 0);
    assert forall i | 0 <= i < |ms| :: MatchAt(pat, text, ms[i].start) == Some(ms[i]);
    Values(ms)
  }

  /** No match of `f` starts anywhere in `[lo, hi)`. */
  ghost predicate NoMatchIn(f: Matcher, text: string, lo: nat, hi: nat)
  {
    hi <= |text| && forall j | lo <= j < hi :: f(text, j).None?
  }

  /**
   The declarative reading of a left-to-right, non-overlapping scan from `pos`: no match
   starts before the first listed match, that match is the match at its own start, and the
   rest is such a scan from where it ends; an empty list means no match starts at all.
   */
  ghost predicate IsScan(f: Matcher, text: string, pos: nat, ms: seq<Match>)
    decreases |ms|
  {
    if ms == [] then NoMatchIn(f, text, pos, |text|)
    else
      && pos <= ms[0].start < |text|
      && NoMatchIn(f, text, pos, ms[0].start)
      && f(text, ms[0].start) == Some(ms[0])
      && IsScan(f, text, ms[0].end, ms[1..])
  }

  lemma {:induction false} FindAllIsScan(f: Matcher, text: string, pos: nat)
    requires Advances(f, text)
    requires pos <= |text|
    ensures IsScan(f, text, pos, FindAll(f, text, pos))
    decreases |text| - pos
  {
    if pos < |text| {
      match f(text, pos)
      case Some(m) =>
        FindAllIsScan(f, text, m.end);
        var ms := FindAll(f, text, pos);
        assert ms[1..] == FindAll(f, text, m.end);
      case None =>
        FindAllIsScan(f, text, pos + 1);
        ScanSkip(f, text, pos, FindAll(f, text, pos + 1));
    }
  }

  /** A position where nothing matches can be put in front of a scan, and taken off again. */
  lemma ScanSkip(f: Matcher, text: string, pos: nat, ms: seq<Match>)
    requires pos < |text| && f(text, pos).None?
    ensures IsScan(f, text, pos + 1, ms) <==> IsScan(f, text, pos, ms)
  {
    if ms != [] && IsScan(f, text, pos, ms) {
      assert ms[0].start != pos;
    }
  }

  /** A scan from a position where a match starts begins with that match. */
  lemma ScanHead(f: Matcher, text: string, pos: nat, m: Match, ms: seq<Match>)
    requires pos < |text| && f(text, pos) == Some(m)
    requires IsScan(f, text, pos, ms)
    ensures ms != [] && ms[0] == m
  {
  }

  lemma {:induction false} ScanIsFindAll(f: Matcher, text: string, pos: nat, ms: seq<Match>)
    requires Advances(f, text)
    requires pos <= |text|
    requires IsScan(f, text, pos, ms)
    ensures ms == FindAll(f, text, pos)
    decreases |text| - pos, 1
  {
    if pos < |text| {
      if f(text, pos).Some? {
        ScanIsFindAllAtMatch(f, text, pos, ms);
      } else {
        ScanIsFindAllAtGap(f, text, pos, ms);
      }
    }
  }

  lemma {:induction false} ScanIsFindAllAtMatch(f: Matcher, text: string, pos: nat, ms: seq<Match>)
    requires Advances(f, text)
    requires pos < |text| && f(text, pos).Some?
    requires IsScan(f, text, pos, ms)
    ensures ms == FindAll(f, text, pos)
    decreases |text| - pos, 0
  {
    var m := f(text, pos).value;
    ScanHead(f, text, pos, m, ms);
    ScanIsFindAll(f, text, m.end, ms[1..]);
    assert ms == [m] + ms[1..];
  }

  lemma {:induction false} ScanIsFindAllAtGap(f: Matcher, text: string, pos: nat, ms: seq<Match>)
    requires Advances(f, text)
    requires pos < |text| && f(text, pos).None?
    requires IsScan(f, text, pos, ms)
    ensures ms == FindAll(f, text, pos)
    decreases |text| - pos, 0
  {
    ScanSkip(f, text, pos, ms);
    ScanIsFindAll(f, text, pos + 1, ms);
  }

  /** `FindAll` is exactly the left-to-right, non-overlapping scan, and the only one. */
  lemma ScanCharacterization(f: Matcher, text: string, pos: nat, ms: seq<Match>)
    requires Advances(f, text)
    requires pos <= |text|
    ensures IsScan(f, text, pos, ms) <==> ms == FindAll(f, text, pos)
  {
    FindAllIsScan(f, text, pos);
    if IsScan(f, text, pos, ms) {
      ScanIsFindAll(f, text, pos, ms);
    }
  }

  /** The scan finds nothing exactly when no match of the expression starts anywhere. */
  lemma NothingFoundIff(f: Matcher, text: string)
    requires Advances(f, text)
    ensures FindAll(f, text, 0) == [] <==> NoMatchIn(f, text, 0, |text|)
  {
    FindAllIsScan(f, text, 0);
  }
}
