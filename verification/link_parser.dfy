/**
 `LinkParser` (simple_link_test.py:15-53) and `analyze_html_structure` (121-140). The
 HTML tokeniser is not modelled: the parser is fed the start tags it would report, with
 tag and attribute names already lower-cased, in document order.
 */
module HtmlStructure {
  import opened Wrappers

  /** One attribute; a bare attribute such as `disabled` has no value. */
  datatype Attr = Attr(name: string, value: Option<string>)

  datatype StartTag = StartTag(tag: string, attrs: seq<Attr>)

  /**
   `key in dict(attrs)` and `dict(attrs)[key]`: `None` when the key is absent, otherwise
   the value of its last occurrence.
   */
  function Lookup(attrs: seq<Attr>, key: string): (r: Option<Option<string>>)
    ensures r.None? <==> forall i | 0 <= i < |attrs| :: attrs[i].name != key
    ensures r.Some? ==> exists i | 0 <= i < |attrs| ::
      && attrs[i].name == key && attrs[i].value == r.value
      && forall j | i < j < |attrs| :: attrs[j].name != key
  {
    if attrs == [] then None
    else
      var rest := Lookup(attrs[1..], key);
      assert forall i | 1 <= i < |attrs| :: attrs[1..][i - 1] == attrs[i];
      if rest.Some? then rest
      else if attrs[0].name == key then Some(attrs[0].value)
      else None
  }

  /** `dict(attrs)`, built the way the constructor builds it: left to right, later pairs overwrite. */
  function DictFold(m: map<string, Option<string>>, attrs: seq<Attr>): map<string, Option<string>>
    decreases |attrs|
  {
    if attrs == [] then m else DictFold(m[attrs[0].name := attrs[0].value], attrs[1..])
  }

  /** The last-wins lookup is the lookup in the dictionary the attribute list builds. */
  lemma {:induction false} LookupIsDict(m: map<string, Option<string>>, attrs: seq<Attr>, key: string)
    ensures key in DictFold(m, attrs) <==> key in m || Lookup(attrs, key).Some?
    ensures Lookup(attrs, key).Some? ==> DictFold(m, attrs)[key] == Lookup(attrs, key).value
    ensures Lookup(attrs, key).None? && key in m ==> DictFold(m, attrs)[key] == m[key]
    decreases |attrs|
  {
    if attrs != [] {
      LookupIsDict(m[attrs[0].name := attrs[0].value], attrs[1..], key);
    }
  }

  /** `dict(attrs).get(key)`: an absent key and a bare attribute both read as `None`. */
  function Get(attrs: seq<Attr>, key: string): Option<string>
  {
    match Lookup(attrs, key)
    case None => None
    case Some(v) => v
  }

  /** `dict(attrs).get(key, default)`: the default is used only when the key is absent. */
  function GetOr(attrs: seq<Attr>, key: string, default: string): (r: Option<string>)
    ensures (forall i | 0 <= i < |attrs| :: attrs[i].name != key) ==> r == Some(default)
    ensures (exists i | 0 <= i < |attrs| :: attrs[i].name == key) ==> r == Get(attrs, key)
  {
    match Lookup(attrs, key)
    case None => Some(default)
    case Some(v) => v
  }

  /** Python truthiness of an optional string: present and non-empty. */
  predicate Truthy(v: Option<string>)
  {
    v.Some? && |v.value| > 0
  }

  /**
   The recorded elements. A link also carries `type: 'link'`, `tag: 'a'` and `text: ''`,
   a button `type: 'button'` and `text: ''`, a form `type: 'form'`; those constants are
   implied by the case.
   */
  datatype Element =
    | LinkElement(href: Option<string>, onclick: Option<string>)
    | ButtonElement(handler: string)
    | FormElement(action: Option<string>, httpMethod: Option<string>)

  datatype Parser = Parser(links: seq<Element>, buttons: seq<Element>, forms: seq<Element>)

  const Fresh := Parser([], [], [])

  /** An `a` tag is recorded when its href or its onclick is truthy. */
  predicate RecordsLink(t: StartTag)
  {
    t.tag == "a" && (Truthy(Get(t.attrs, "href")) || Truthy(Get(t.attrs, "onclick")))
  }

  /** A `button` tag is recorded when its onclick is truthy. */
  predicate RecordsButton(t: StartTag)
  {
    t.tag == "button" && Truthy(Get(t.attrs, "onclick"))
  }

  /** `handle_starttag`. */
  function HandleStartTag(p: Parser, t: StartTag): (r: Parser)
    ensures p.links <= r.links && p.buttons <= r.buttons && p.forms <= r.forms
    ensures |r.links| + |r.buttons| + |r.forms| <= |p.links| + |p.buttons| + |p.forms| + 1
    ensures |r.links| > |p.links| <==> RecordsLink(t)
    ensures |r.buttons| > |p.buttons| <==> RecordsButton(t)
    ensures |r.forms| > |p.forms| <==> t.tag == "form"
    ensures RecordsLink(t) ==> r.links[|p.links|] == LinkElement(Get(t.attrs, "href"), Get(t.attrs, "onclick"))
    ensures RecordsButton(t) ==> r.buttons[|p.buttons|] == ButtonElement(Get(t.attrs, "onclick").value)
    ensures t.tag == "form" ==>
      r.forms[|p.forms|] == FormElement(Get(t.attrs, "action"), GetOr(t.attrs, "method", "GET"))
  {
    var d := t.attrs;
    if t.tag == "a" then
      var href := Get(d, "href");
      var onclick := Get(d, "onclick");
      if Truthy(href) || Truthy(onclick) then p.(links := p.links + [LinkElement(href, onclick)]) else p
    else if t.tag == "button" then
      var onclick := Get(d, "onclick");
      if Truthy(onclick) then p.(buttons := p.buttons + [ButtonElement(onclick.value)]) else p
    else if t.tag == "form" then
      p.(forms := p.forms + [FormElement(Get(d, "action"), GetOr(d, "method", "GET"))])
    else p
  }

  /** What one start tag contributes to each list of the parser. */
  function LinkOf(t: StartTag): seq<Element>
  {
    if RecordsLink(t) then [LinkElement(Get(t.attrs, "href"), Get(t.attrs, "onclick"))] else []
  }

  function ButtonOf(t: StartTag): seq<Element>
  {
    if RecordsButton(t) then [ButtonElement(Get(t.attrs, "onclick").value)] else []
  }

  function FormOf(t: StartTag): seq<Element>
  {
    if t.tag == "form" then [FormElement(Get(t.attrs, "action"), GetOr(t.attrs, "method", "GET"))] else []
  }

  /** The contributions of a sequence of start tags, concatenated in document order. */
  function Collect(ts: seq<StartTag>, f: StartTag -> seq<Element>): seq<Element>
  {
    if ts == [] then [] else f(ts[0]) + Collect(ts[1..], f)
  }

  function LinksOf(ts: seq<StartTag>): seq<Element>
  {
    Collect(ts, LinkOf)
  }

  function ButtonsOf(ts: seq<StartTag>): seq<Element>
  {
    Collect(ts, ButtonOf)
  }

  function FormsOf(ts: seq<StartTag>): seq<Element>
  {
    Collect(ts, FormOf)
  }

  /** Collecting distributes over concatenation of tag sequences. */
  lemma {:induction false} CollectAppend(a: seq<StartTag>, b: seq<StartTag>, f: StartTag -> seq<Element>)
    ensures Collect(a + b, f) == Collect(a, f) + Collect(b, f)
  {
    if a == [] {
      assert a + b == b;
    } else {
      assert (a + b)[1..] == a[1..] + b;
      CollectAppend(a[1..], b, f);
    }
  }

  /** One start tag extends each list by exactly that tag's contribution. */
  lemma HandleIsContribution(p: Parser, t: StartTag)
    ensures HandleStartTag(p, t) == Parser(p.links + LinkOf(t), p.buttons + ButtonOf(t), p.forms + FormOf(t))
  {
  }

  /** Collecting over one tag is that tag's contribution. */
  lemma CollectOne(t: StartTag, f: StartTag -> seq<Element>)
    ensures Collect([t], f) == f(t)
  {
    assert Collect([t], f) == f(t) + Collect([], f);
  }

  /** `parser.feed(...)` over the start tags: the fold of `handle_starttag` from a fresh parser. */
  method Feed(ts: seq<StartTag>) returns (p: Parser)
    ensures p == Parser(LinksOf(ts), ButtonsOf(ts), FormsOf(ts))
  {
    p := Fresh;
    var i := 0;
    while i < |ts|
      invariant 0 <= i <= |ts|
      invariant p == Parser(LinksOf(ts[..i]), ButtonsOf(ts[..i]), FormsOf(ts[..i]))
    {
      CollectAppend(ts[..i], [ts[i]], LinkOf);
      CollectAppend(ts[..i], [ts[i]], ButtonOf);
      CollectAppend(ts[..i], [ts[i]], FormOf);
      CollectOne(ts[i], LinkOf);
      CollectOne(ts[i], ButtonOf);
      CollectOne(ts[i], FormOf);
      HandleIsContribution(p, ts[i]);
      assert ts[..i + 1] == ts[..i] + [ts[i]];
      p := HandleStartTag(p, ts[i]);
      i := i + 1;
    }
    assert ts[..i] == ts;
  }

  /** Every form start tag is recorded, whatever its attributes. */
  lemma {:induction false} EveryFormRecorded(ts: seq<StartTag>)
    ensures |FormsOf(ts)| <= |ts|
    ensures (forall i | 0 <= i < |ts| :: ts[i].tag == "form") ==> |FormsOf(ts)| == |ts|
  {
    if ts != [] {
      EveryFormRecorded(ts[1..]);
      assert forall i | 1 <= i < |ts| :: ts[1..][i - 1] == ts[i];
    }
  }

  /** Tags other than `a`, `button` and `form` record nothing. */
  lemma {:induction false} OtherTagsIgnored(ts: seq<StartTag>)
    requires forall i | 0 <= i < |ts| :: ts[i].tag !in {"a", "button", "form"}
    ensures LinksOf(ts) == ButtonsOf(ts) == FormsOf(ts) == []
  {
    if ts != [] {
      OtherTagsIgnored(ts[1..]);
    }
  }

  /** The counts and the `interactive_elements` list of `analyze_html_structure`. */
  datatype Structure = Structure(linksFound: nat, buttonsFound: nat, formsFound: nat, interactive: seq<Element>)

  /** `analyze_html_structure`: the counts are the list lengths, the elements are links, then buttons, then forms. */
  function AnalyzeHtmlStructure(ts: seq<StartTag>): (s: Structure)
    ensures s.linksFound == |LinksOf(ts)| && s.buttonsFound == |ButtonsOf(ts)| && s.formsFound == |FormsOf(ts)|
    ensures |s.interactive| == s.linksFound + s.buttonsFound + s.formsFound
    ensures s.interactive[..s.linksFound] == LinksOf(ts)
    ensures s.interactive[s.linksFound..s.linksFound + s.buttonsFound] == ButtonsOf(ts)
    ensures s.interactive[s.linksFound + s.buttonsFound..] == FormsOf(ts)
  {
    var links := LinksOf(ts);
    var buttons := ButtonsOf(ts);
    var forms := FormsOf(ts);
    var all := links + buttons + forms;
    assert all[..|links|] == links;
    assert all[|links|..|links| + |buttons|] == buttons;
    assert all[|links| + |buttons|..] == forms;
    Structure(|links|, |buttons|, |forms|, all)
  }
}
