/**
 The onclick function-name heuristic (comprehensive_link_checker.py:236-273, and the
 same name extraction at simple_link_test.py:146-179): the name a handler calls is its
 leading identifier when optional white space and `(` follow it; the names a page defines
 are those of `function NAME (`; the missing names are the called ones not defined.
 */
module JavaScript {
  import opened Wrappers
  import opened Text
  import opened Patterns
  import opened Scanner
  import opened LinkExtraction

  /**
   `re.match(r'([a-zA-Z_$][a-zA-Z0-9_$]*)\s*\(', handler)`: anchored at the start of the
   handler. The greedy identifier can give nothing back usefully, because the character
   after a shortened identifier is again an identifier character, which is neither white
   space nor `(`.
   */
  function LeadingCall(h: string): (r: Option<string>)
    ensures r.Some? ==> IsIdentifier(r.value) && StartsWith(h, r.value)
  {
    if |h| == 0 || !IsIdentStart(h[0]) then None
    else
      var e := IdentEnd(h, 1);
      var k := SpaceEnd(h, e);
      if k < |h| && h[k] == '(' then Some(h[..e]) else None
  }

  /** `h` is `name`, then white space up to position `k`, then `(` at `k`, then anything. */
  predicate CallAt(h: string, name: string, k: nat)
  {
    && |name| <= k < |h|
    && h[..|name|] == name
    && (forall j | |name| <= j < k :: IsSpace(h[j]))
    && h[k] == '('
  }

  /** The declarative reading of a handler that calls `name`. */
  ghost predicate CallsName(h: string, name: string)
  {
    IsIdentifier(name) && exists k: nat :: CallAt(h, name, k)
  }

  /** White space and `(` are never identifier characters. */
  lemma SpaceIsNotIdent(c: char)
    requires IsSpace(c) || c == '('
    ensures !IsIdentChar(c)
  {
  }

  /** The heuristic yields `name` exactly when the handler has the declared call shape for it. */
  lemma LeadingCallIff(h: string, name: string)
    ensures LeadingCall(h) == Some(name) <==> CallsName(h, name)
  {
    if LeadingCall(h) == Some(name) {
      var e := IdentEnd(h, 1);
      var k := SpaceEnd(h, e);
      assert CallAt(h, name, k);
    }
    if CallsName(h, name) {
      var k: nat :| CallAt(h, name, k);
      var n := |name|;
      assert h[0] == name[0];
      assert forall j | 1 <= j < n :: h[j] == name[j];
      SpaceIsNotIdent(h[n]);
      IdentRunIs(h, 1, n);
      assert SpaceEnd(h, n) == k by {
        SpaceRunIs(h, n, k);
      }
    }
  }

  /** A run of identifier characters ended by a non-identifier character is the whole run. */
  lemma {:induction false} IdentRunIs(h: string, i: nat, e: nat)
    requires i <= e < |h|
    requires forall j | i <= j < e :: IsIdentChar(h[j])
    requires !IsIdentChar(h[e])
    ensures IdentEnd(h, i) == e
    decreases e - i
  {
    if i < e {
      IdentRunIs(h, i + 1, e);
    }
  }

  /** A run of white space ended by `(` is the whole run. */
  lemma {:induction false} SpaceRunIs(h: string, i: nat, k: nat)
    requires i <= k < |h|
    requires forall j | i <= j < k :: IsSpace(h[j])
    requires h[k] == '('
    ensures SpaceEnd(h, i) == k
    decreases k - i
  {
    if i < k {
      SpaceRunIs(h, i + 1, k);
    }
  }

  /** The identifier run of a suffix is the identifier run of the text, shifted. */
  lemma {:induction false} IdentEndShift(text: string, w: nat, i: nat)
    requires w <= i <= |text|
    ensures IdentEnd(text[w..], i - w) == IdentEnd(text, i) - w
    decreases |text| - i
  {
    if i < |text| && IsIdentChar(text[i]) {
      assert text[w..][i - w] == text[i];
      IdentEndShift(text, w, i + 1);
    }
  }

  /** The white-space run of a suffix is the white-space run of the text, shifted. */
  lemma {:induction false} SpaceEndShift(text: string, w: nat, i: nat)
    requires w <= i <= |text|
    ensures SpaceEnd(text[w..], i - w) == SpaceEnd(text, i) - w
    decreases |text| - i
  {
    if i < |text| && IsSpace(text[i]) {
      assert text[w..][i - w] == text[i];
      SpaceEndShift(text, w, i + 1);
    }
  }

  /** The call heuristic on a suffix that starts with an identifier, in the suffix's own positions. */
  lemma LeadingCallOfSuffix(text: string, w: nat)
    requires w < |text| && IsIdentStart(text[w])
    ensures var e := IdentEnd(text, w + 1);
      var k := SpaceEnd(text, e);
      LeadingCall(text[w..]) == if k < |text| && text[k] == '(' then Some(text[w..e]) else None
  {
    var h := text[w..];
    assert h[0] == text[w];
    IdentEndShift(text, w, w + 1);
    var e := IdentEnd(text, w + 1);
    SpaceEndShift(text, w, e);
    var k := SpaceEnd(text, e);
    if k < |text| {
      assert h[k - w] == text[k];
    }
    assert h[..e - w] == text[w..e];
  }

  /** The definition pattern after `function`, in terms of the three runs it reads. */
  lemma FunctionDefRuns(text: string, p: nat)
    requires HasAt(text, p, "function")
    ensures var w := SpaceEnd(text, p + 8);
      FunctionDefAt(text, p) ==
        if w == p + 8 || w == |text| || !IsIdentStart(text[w]) then None
        else
          var e := IdentEnd(text, w + 1);
          var k := SpaceEnd(text, e);
          if k < |text| && text[k] == '(' then Some(Match(p, w, k + 1, text[w..e])) else None
  {
  }

  /** The name the definition pattern captures at `p`, if it matches there. */
  function DefinedAt(text: string, p: nat): Option<string>
    requires p <= |text|
  {
    if FunctionDefAt(text, p).Some? then Some(FunctionDefAt(text, p).value.value) else None
  }

  /** After `function` and its white space, the definition pattern reads the name the call heuristic reads. */
  lemma FunctionDefIsLeadingCall(text: string, p: nat)
    requires HasAt(text, p, "function")
    ensures var w := SpaceEnd(text, p + 8);
      DefinedAt(text, p) == if w > p + 8 then LeadingCall(text[w..]) else None
  {
    var w := SpaceEnd(text, p + 8);
    if w > p + 8 && w < |text| && IsIdentStart(text[w]) {
      DefinedAtName(text, p);
    } else {
      DefinedAtNone(text, p);
    }
  }

  /** When an identifier follows the white space after `function`, both readings take the same run. */
  lemma DefinedAtName(text: string, p: nat)
    requires HasAt(text, p, "function")
    requires var w := SpaceEnd(text, p + 8); w > p + 8 && w < |text| && IsIdentStart(text[w])
    ensures DefinedAt(text, p) == LeadingCall(text[SpaceEnd(text, p + 8)..])
  {
    FunctionDefRuns(text, p);
    LeadingCallOfSuffix(text, SpaceEnd(text, p + 8));
  }

  /** Otherwise neither reading finds a name. */
  lemma DefinedAtNone(text: string, p: nat)
    requires HasAt(text, p, "function")
    requires var w := SpaceEnd(text, p + 8); !(w > p + 8 && w < |text| && IsIdentStart(text[w]))
    ensures var w := SpaceEnd(text, p + 8);
      DefinedAt(text, p) == None && (w > p + 8 ==> LeadingCall(text[w..]) == None)
  {
    FunctionDefRuns(text, p);
    var w := SpaceEnd(text, p + 8);
    if w < |text| {
      assert text[w..][0] == text[w];
    }
  }

  /**
   `function\s+NAME\s*\(` matches at `p` with captured name `name` exactly when `function`
   is at `p`, at least one white-space character follows it, and the rest calls `name`.
   */
  lemma FunctionDefIff(text: string, p: nat, name: string)
    requires p <= |text|
    ensures DefinedAt(text, p) == Some(name) <==>
      && HasAt(text, p, "function")
      && exists w | p + 8 < w <= |text| :: (forall j | p + 8 <= j < w :: IsSpace(text[j])) && CallsName(text[w..], name)
  {
    if HasAt(text, p, "function") {
      var w0 := SpaceEnd(text, p + 8);
      FunctionDefIsLeadingCall(text, p);
      LeadingCallIff(text[w0..], name);
      if exists w | p + 8 < w <= |text| :: (forall j | p + 8 <= j < w :: IsSpace(text[j])) && CallsName(text[w..], name) {
        var w :| p + 8 < w <= |text| && (forall j | p + 8 <= j < w :: IsSpace(text[j])) && CallsName(text[w..], name);
        var k: nat :| CallAt(text[w..], name, k);
        assert text[w] == text[w..][0] == name[0];
        assert !IsSpace(text[w]);
        assert w0 == w;
      }
      if DefinedAt(text, p) == Some(name) {
        assert p + 8 < w0;
      }
    }
  }

  /** The set of names called by a list of handlers (`function_names` / `function_calls`). */
  function CalledNames(hs: seq<string>): (r: set<string>)
    ensures forall n :: n in r <==> exists i | 0 <= i < |hs| :: LeadingCall(hs[i]) == Some(n)
  {
    if hs == [] then {}
    else
      var rest := CalledNames(hs[1..]);
      assert forall i | 1 <= i < |hs| :: hs[i] == hs[1..][i - 1];
      match LeadingCall(hs[0])
      case Some(n) => {n} + rest
      case None => rest
  }

  /** `set(re.findall(function_def_pattern, text))`. */
  function DefinedNames(text: string): (r: set<string>)
    ensures forall n | n in r :: IsIdentifier(n)
  {
    var vs := FindValues(FunctionDef, text);
    assert forall i | 0 <= i < |vs| :: ValueShape(FunctionDef, vs[i]);
    set i | 0 <= i < |vs| :: vs[i]
  }

  /** The defined names are the captured names of the one declarative scan for definitions. */
  lemma DefinedIsScan(text: string, ms: seq<Match>)
    requires IsScan(PatternMatcher(FunctionDef), text, 0, ms)
    ensures forall n :: n in DefinedNames(text) <==> exists i | 0 <= i < |ms| :: ms[i].value == n
  {
    ValuesOfScan(FunctionDef, text, ms);
    var vs := Values(ms);
    assert forall i | 0 <= i < |ms| :: vs[i] == ms[i].value;
  }

  /** The record returned by `analyze_javascript_functionality`; its lists are modelled as the sets they come from. */
  datatype JsAnalysis = JsAnalysis(
    handlerCount: nat,
    called: set<string>,
    defined: set<string>,
    missing: set<string>)

  function AnalyzeJavaScript(text: string): (r: JsAnalysis)
    ensures r.handlerCount == |OnclickHandlers(text)|
    ensures forall n :: n in r.called <==>
      exists i | 0 <= i < |OnclickHandlers(text)| :: CallsName(OnclickHandlers(text)[i], n)
    ensures r.defined == DefinedNames(text)
    ensures forall n | n in r.defined :: IsIdentifier(n)
    ensures forall n :: n in r.missing <==> n in r.called && n !in r.defined
  {
    var hs := OnclickHandlers(text);
    var called := CalledNames(hs);
    forall n ensures n in called <==> exists i | 0 <= i < |hs| :: CallsName(hs[i], n)
    {
      forall i | 0 <= i < |hs| ensures LeadingCall(hs[i]) == Some(n) <==> CallsName(hs[i], n)
      {
        LeadingCallIff(hs[i], n);
      }
    }
    var defined := DefinedNames(text);
    JsAnalysis(|hs|, called, defined, called - defined)
  }

  /** The three facts the analysis promises about the missing names. */
  lemma MissingFacts(text: string)
    ensures var a := AnalyzeJavaScript(text);
      && a.missing <= a.called
      && a.missing !! a.defined
      && (a.called <= a.defined <==> a.missing == {})
  {
    var a := AnalyzeJavaScript(text);
    if a.missing == {} {
      forall n | n in a.called ensures n in a.defined
      {
        assert n !in a.missing;
      }
    }
  }

  /** The fourteen names `analyze_javascript_functions` expects to be called. */
  const ExpectedFunctions: seq<string> := [
    "switchSection", "toggleAdminAccess", "toggleWalletOptions",
    "connectWallet", "createTrade", "addNewCard", "saveSettings",
    "toggleCart", "checkout", "switchAdminTab", "addToCart",
    "placeBid", "acceptTrade", "declineTrade"]

  /** The names of `names` that are not called, in the order of `names`. */
  function NotCalled(names: seq<string>, calls: set<string>): (r: seq<string>)
    ensures |r| <= |names|
  {
    if names == [] then []
    else if names[0] !in calls then [names[0]] + NotCalled(names[1..], calls)
    else NotCalled(names[1..], calls)
  }

  /** A name is kept exactly when it is in the list and not called. */
  lemma {:induction false} NotCalledMembers(names: seq<string>, calls: set<string>)
    ensures forall n :: n in NotCalled(names, calls) <==> n in names && n !in calls
  {
    if names != [] {
      NotCalledMembers(names[1..], calls);
      assert names == [names[0]] + names[1..];
    }
  }

  /** The filter keeps order: filtering a concatenation concatenates the filtered parts. */
  lemma {:induction false} NotCalledAppend(a: seq<string>, b: seq<string>, calls: set<string>)
    ensures NotCalled(a + b, calls) == NotCalled(a, calls) + NotCalled(b, calls)
  {
    if a != [] {
      NotCalledAppend(a[1..], b, calls);
      assert (a + b)[0] == a[0] && (a + b)[1..] == a[1..] + b;
    } else {
      assert a + b == b;
    }
  }

  /** Nothing called keeps the whole list; everything called leaves nothing. */
  lemma {:induction false} NotCalledExtremes(names: seq<string>, calls: set<string>)
    ensures (forall i | 0 <= i < |names| :: names[i] !in calls) ==> NotCalled(names, calls) == names
    ensures (forall i | 0 <= i < |names| :: names[i] in calls) ==> NotCalled(names, calls) == []
  {
    if names != [] {
      NotCalledExtremes(names[1..], calls);
      assert forall i | 1 <= i < |names| :: names[1..][i - 1] == names[i];
      if forall i | 0 <= i < |names| :: names[i] !in calls {
        assert names == [names[0]] + names[1..];
      }
    }
  }

  /** `missing_functions` of `analyze_javascript_functions`. */
  function MissingExpected(calls: set<string>): (r: seq<string>)
    ensures forall n :: n in r <==> n in ExpectedFunctions && n !in calls
  {
    NotCalledMembers(ExpectedFunctions, calls);
    NotCalled(ExpectedFunctions, calls)
  }

  /** The "missing expected functions" issue is raised exactly when some expected name is not called. */
  lemma MissingExpectedEmptyIff(calls: set<string>)
    ensures MissingExpected(calls) == [] <==>
      forall i | 0 <= i < |ExpectedFunctions| :: ExpectedFunctions[i] in calls
  {
    NotCalledExtremes(ExpectedFunctions, calls);
    if MissingExpected(calls) == [] {
      forall i | 0 <= i < |ExpectedFunctions| ensures ExpectedFunctions[i] in calls
      {
        assert ExpectedFunctions[i] !in MissingExpected(calls);
      }
    }
  }

  /** The called names of the simple tester: the same heuristic over the same onclick scan. */
  function FunctionCalls(text: string): (r: set<string>)
    ensures r == AnalyzeJavaScript(text).called
  {
    CalledNames(OnclickHandlers(text))
  }
}
