/**
 Probing external links (comprehensive_link_checker.py:27-63 and 202-234). The network
 is not modelled: what `urlopen` does for one request is a `Fetch`, and the probe of a
 batch is an oracle that gives the outcome of the i-th request of the batch for a URL.
 */
module Probing {
  import opened Wrappers

  /**
   What one `urlopen` call does: it answers, or raises `HTTPError`, another `URLError`,
   or any other exception. `HTTPError` is a subclass of `URLError` and is caught first,
   so it has its own case here.
   */
  datatype Fetch =
    | Responded(code: int, contentType: Option<string>)
    | RaisedHttpError(code: int, reason: string)
    | RaisedUrlError(reason: string)
    | RaisedOther(message: string)

  /** The dictionary `test_url` returns, one case per `status` value. */
  datatype ProbeOutcome =
    | Success(statusCode: int, contentType: string)
    | HttpError(statusCode: int, error: string)
    | UrlError(error: string)
    | Failed(error: string)
  {
    function Status(): string
    {
      match this
      case Success(_, _) => "success"
      case HttpError(_, _) => "http_error"
      case UrlError(_) => "url_error"
      case Failed(_) => "error"
    }

    /** The `accessible` field. */
    predicate Accessible()
    {
      Success?
    }

    /** The `error` field, which every case but success has. */
    function ErrorText(): Option<string>
    {
      if Success? then None else Some(error)
    }
  }

  /** `test_url`: the outcome of one request; a missing content type reads as "". */
  function TestUrl(f: Fetch): (r: ProbeOutcome)
    ensures r.Accessible() <==> f.Responded?
    ensures f.Responded? ==> r.statusCode == f.code && (f.contentType.Some? ==> r.contentType == f.contentType.value)
    ensures f.Responded? && f.contentType.None? ==> r.contentType == ""
    ensures f.RaisedHttpError? ==> r.HttpError? && r.statusCode == f.code && r.error == f.reason
    ensures f.RaisedUrlError? ==> r == UrlError(f.reason)
    ensures f.RaisedOther? ==> r == Failed(f.message)
  {
    match f
    case Responded(code, ct) => Success(code, if ct.Some? then ct.value else "")
    case RaisedHttpError(code, reason) => HttpError(code, reason)
    case RaisedUrlError(reason) => UrlError(reason)
    case RaisedOther(message) => Failed(message)
  }

  /** `accessible` is true exactly for the "success" status, and exactly when there is no error text. */
  lemma StatusAccessible(o: ProbeOutcome)
    ensures o.Accessible() <==> o.Status() == "success"
    ensures o.Accessible() <==> o.ErrorText().None?
    ensures o.Status() in {"success", "http_error", "url_error", "error"}
  {
  }

  /** How many external links one source may probe ("test first 10 to avoid being rate limited"). */
  const ProbeCap: nat := 10

  /** What `urlopen` does on the i-th request of a batch, for a URL. */
  type Prober = (nat, string) -> Fetch

  datatype ProbeRecord = ProbeRecord(url: string, result: ProbeOutcome)

  /** One entry of `link_checks`. */
  datatype LinkCheck = LinkCheck(source: string, tested: nat, total: nat, results: seq<ProbeRecord>)

  /** What every entry `test_external_links` records satisfies. */
  predicate WellFormedCheck(c: LinkCheck)
  {
    c.tested == |c.results| && 0 < c.tested <= ProbeCap && c.tested <= c.total
  }

  /**
   `test_external_links`: nothing is recorded for an empty list; otherwise the first
   `min(n, 10)` links are probed in order with `test_url` and one entry is recorded.
   */
  method ProbeBatch(links: seq<string>, source: string, probe: Prober) returns (r: Option<LinkCheck>)
    ensures r.None? <==> links == []
    ensures r.Some? ==> r.value.source == source && r.value.total == |links|
    ensures r.Some? ==> r.value.tested == |r.value.results| == Min(|links|, ProbeCap)
    ensures r.Some? ==> forall i | 0 <= i < |r.value.results| ::
      r.value.results[i] == ProbeRecord(links[i], TestUrl(probe(i, links[i])))
    ensures r.Some? ==> forall i | 0 <= i < |r.value.results| ::
      r.value.results[i].result.Accessible() <==> probe(i, links[i]).Responded?
    ensures r.Some? ==> WellFormedCheck(r.value)
  {
    if links == [] {
      return None;
    }
    var n := Min(|links|, ProbeCap);
    var results: seq<ProbeRecord> := [];
    var i := 0;
    while i < n
      invariant 0 <= i <= n
      invariant |results| == i
      invariant forall j | 0 <= j < i :: results[j] == ProbeRecord(links[j], TestUrl(probe(j, links[j])))
    {
      results := results + [ProbeRecord(links[i], TestUrl(probe(i, links[i])))];
      i := i + 1;
    }
    return Some(LinkCheck(source, |results|, |links|, results));
  }
}
