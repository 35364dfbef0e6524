/**
  The network queries: the URL, method and status filters with a last-N limit, the
  summary view, the lookup of one request by id or URL, and clearing the log.
 */
module NetworkTool {
  import opened Options
  import opened Entries
  import opened JsString
  import opened JsArray
  import AppState
  import Capture

  /** URLs longer than this are cut in the summary view. */
  const MaxUrlLength: nat := 150

  const NotFoundMessage: string := "Request not found. Use get_network to list available requests."

  /**
    Query parameters (`httpMethod` is the source's `method`). `status` is "success",
    "error" or anything else, which applies no status filter.
   */
  datatype GetNetworkParams = GetNetworkParams(
    filter: Option<string>,
    httpMethod: Option<string>,
    status: Option<string>,
    last: Option<int>)

  datatype GetRequestDetailParams = GetRequestDetailParams(id: Option<string>, url: Option<string>)

  /** One request as the summary list shows it (the duration and ISO time are not modelled). */
  datatype NetworkView = NetworkView(
    id: string,
    httpMethod: string,
    url: string,
    status: StatusView,
    failureReason: Option<string>,
    contentType: Option<string>,
    hasRequestBody: bool,
    hasResponseBody: bool,
    timestamp: int)

  datatype NetworkReport = NetworkReport(count: nat, total: nat, requests: seq<NetworkView>)

  /** Everything stored about one request, as the detail lookup returns it. */
  datatype RequestDetail = RequestDetail(
    id: string,
    httpMethod: string,
    url: string,
    status: StatusView,
    failureReason: Option<string>,
    contentType: Option<string>,
    timing: Option<Timing>,
    requestHeaders: Option<Headers>,
    responseHeaders: Option<Headers>,
    requestBody: Option<string>,
    responseBody: Option<string>)

  /** The three filters, each a predicate that holds everywhere when its parameter is off. */
  function UrlStage(params: GetNetworkParams): NetworkEntry -> bool {
    (e: NetworkEntry) => Truthy(params.filter) ==> Includes(ToLower(e.url), ToLower(params.filter.value))
  }

  function MethodStage(params: GetNetworkParams): NetworkEntry -> bool {
    (e: NetworkEntry) => Truthy(params.httpMethod) ==> e.httpMethod == ToUpper(params.httpMethod.value)
  }

  predicate StatusPasses(status: Option<string>, code: Option<int>) {
    if status == Some("success") then IsSuccessStatus(code)
    else if status == Some("error") then IsFailedStatus(code)
    else true
  }

  function StatusStage(params: GetNetworkParams): NetworkEntry -> bool {
    (e: NetworkEntry) => StatusPasses(params.status, e.status)
  }

  /** Whether an entry passes every filter of `params`. */
  function Matches(params: GetNetworkParams): NetworkEntry -> bool {
    (e: NetworkEntry) =>
      && (Truthy(params.filter) ==> Includes(ToLower(e.url), ToLower(params.filter.value)))
      && (Truthy(params.httpMethod) ==> e.httpMethod == ToUpper(params.httpMethod.value))
      && StatusPasses(params.status, e.status)
  }

  /** One filter step that the source only runs when its parameter is set. */
  function FilterWhen(on: bool, s: seq<NetworkEntry>, p: NetworkEntry -> bool): seq<NetworkEntry> {
    if on then Filter(s, p) else s
  }

  /** The selection `getNetwork` makes, in the source's order: URL, method, status, limit. */
  function SelectRequests(logs: seq<NetworkEntry>, params: GetNetworkParams): seq<NetworkEntry> {
    var byUrl := FilterWhen(Truthy(params.filter), logs, UrlStage(params));
    var byMethod := FilterWhen(Truthy(params.httpMethod), byUrl, MethodStage(params));
    var byStatus := FilterWhen(params.status == Some("success") || params.status == Some("error"), byMethod, StatusStage(params));
    LimitLast(byStatus, params.last)
  }

  /** A step that is switched off filters by a predicate that holds everywhere. */
  lemma FilterWhenIsFilter(on: bool, s: seq<NetworkEntry>, p: NetworkEntry -> bool)
    requires !on ==> forall i :: 0 <= i < |s| ==> p(s[i])
    ensures FilterWhen(on, s, p) == Filter(s, p)
  {
    if !on {
      FilterAll(s, p);
    }
  }

  /** The three successive filters are one filter by `Matches`, and the limit comes after them. */
  lemma SelectIsLimitedFilter(logs: seq<NetworkEntry>, params: GetNetworkParams)
    ensures SelectRequests(logs, params) == LimitLast(Filter(logs, Matches(params)), params.last)
  {
    var u, m, st := UrlStage(params), MethodStage(params), StatusStage(params);
    var byUrl := FilterWhen(Truthy(params.filter), logs, u);
    FilterWhenIsFilter(Truthy(params.filter), logs, u);
    var byMethod := FilterWhen(Truthy(params.httpMethod), byUrl, m);
    FilterWhenIsFilter(Truthy(params.httpMethod), byUrl, m);
    var statusOn := params.status == Some("success") || params.status == Some("error");
    FilterWhenIsFilter(statusOn, byMethod, st);
    var um := (e: NetworkEntry) => u(e) && m(e);
    FilterCompose(logs, u, m, um);
    FilterCompose(logs, um, st, Matches(params));
  }

  /**
    What the selection promises: a subsequence of the log in log order; every request
    returned passes each active filter; without a limit every request passing them is
    returned; with a positive limit exactly the newest `last` of them.
   */
  lemma SelectRequestsSpec(logs: seq<NetworkEntry>, params: GetNetworkParams)
    ensures IsSubseq(SelectRequests(logs, params), logs)
    ensures forall e :: e in SelectRequests(logs, params) ==>
              && e in logs
              && (Truthy(params.filter) ==> Includes(ToLower(e.url), ToLower(params.filter.value)))
              && (Truthy(params.httpMethod) ==> e.httpMethod == ToUpper(params.httpMethod.value))
              && (params.status == Some("success") ==> IsSuccessStatus(e.status))
              && (params.status == Some("error") ==> IsFailedStatus(e.status))
    ensures params.last.None? || params.last.value == 0 ==>
              forall i :: 0 <= i < |logs| && Matches(params)(logs[i]) ==> logs[i] in SelectRequests(logs, params)
    ensures params.last.Some? && params.last.value >= 1 ==>
              SelectRequests(logs, params) == Last(Filter(logs, Matches(params)), params.last.value)
  {
    var f := Filter(logs, Matches(params));
    var r := SelectRequests(logs, params);
    SelectIsLimitedFilter(logs, params);
    assert r == LimitLast(f, params.last);
    LimitLastIsSubseq(f, params.last);
    SubseqTrans(r, f, logs);
  }

  /** The "success" and "error" selections never share a request, so together they hold at most the whole log. */
  lemma StatusSelectionsDisjoint(logs: seq<NetworkEntry>)
    ensures |SelectRequests(logs, GetNetworkParams(None, None, Some("success"), None))|
          + |SelectRequests(logs, GetNetworkParams(None, None, Some("error"), None))| <= |logs|
  {
    var ok := GetNetworkParams(None, None, Some("success"), None);
    var bad := GetNetworkParams(None, None, Some("error"), None);
    SelectIsLimitedFilter(logs, ok);
    SelectIsLimitedFilter(logs, bad);
    forall i | 0 <= i < |logs|
      ensures !(Matches(ok)(logs[i]) && Matches(bad)(logs[i]))
    {
      StatusClasses(logs[i].status);
    }
    FilterDisjointCount(logs, Matches(ok), Matches(bad));
  }

  /** The summary view of one request: URL cut at 150 characters plus "...", an absent or 0 status shown as failed. */
  function ViewOf(e: NetworkEntry): (v: NetworkView)
    ensures v.id == e.id && v.httpMethod == e.httpMethod && v.timestamp == e.timestamp
    ensures |e.url| <= MaxUrlLength ==> v.url == e.url
    ensures |e.url| > MaxUrlLength ==> v.url == e.url[..MaxUrlLength] + "..."
    ensures v.status.FailedMark? <==> e.status.None? || e.status.value == 0
    ensures v.status.Code? ==> e.status == Some(v.status.code)
    ensures v.hasRequestBody <==> e.requestBody.Some? && e.requestBody.value != ""
    ensures v.hasResponseBody <==> e.responseBody.Some? && e.responseBody.value != ""
    ensures v.failureReason == e.failureReason && v.contentType == e.contentType
  {
    NetworkView(
      e.id, e.httpMethod, Ellipsize(e.url, MaxUrlLength), ShowStatus(e.status),
      e.failureReason, e.contentType, Truthy(e.requestBody), Truthy(e.responseBody), e.timestamp)
  }

  /**
    `getNetwork(params)`: always succeeds; `count` is the number of requests shown, never
    more than `total`, the size of the whole network log; request `i` shown is the view
    of request `i` of the selection.
   */
  function GetNetwork(st: AppState.State, params: GetNetworkParams): (r: ToolResult<NetworkReport>)
    ensures r.Success?
    ensures r.data.total == |AppState.NetworkLogs(st)|
    ensures r.data.count == |r.data.requests| <= r.data.total
    ensures |r.data.requests| == |SelectRequests(AppState.NetworkLogs(st), params)|
    ensures forall i :: 0 <= i < |r.data.requests| ==>
              r.data.requests[i] == ViewOf(SelectRequests(AppState.NetworkLogs(st), params)[i])
  {
    var logs := AppState.NetworkLogs(st);
    var selected := SelectRequests(logs, params);
    SelectIsLimitedFilter(logs, params);
    var views := seq(|selected|, i requires 0 <= i < |selected| => ViewOf(selected[i]));
    Success(NetworkReport(|views|, |logs|, views))
  }

  function IdIs(id: string): NetworkEntry -> bool {
    (e: NetworkEntry) => e.id == id
  }

  /** Case-sensitive substring match on the URL, as the detail lookup does it. */
  function UrlHas(part: string): NetworkEntry -> bool {
    (e: NetworkEntry) => Includes(e.url, part)
  }

  /**
    The lookup `getRequestDetail` makes: a non-empty id wins and takes the first request
    with exactly that id; otherwise a non-empty URL takes the most recent request whose URL
    contains it; with neither there is nothing to find.
   */
  function FindRequest(logs: seq<NetworkEntry>, params: GetRequestDetailParams): Option<NetworkEntry> {
    if Truthy(params.id) then Find(logs, IdIs(params.id.value))
    else if Truthy(params.url) then
      var matches := Filter(logs, UrlHas(params.url.value));
      if |matches| == 0 then None else Some(matches[|matches| - 1])
    else None
  }

  /** The lookup by id: found iff some request has that id, and then it is the first such request. */
  lemma FindByIdSpec(logs: seq<NetworkEntry>, params: GetRequestDetailParams)
    requires Truthy(params.id)
    ensures FindRequest(logs, params).None? <==> forall j :: 0 <= j < |logs| ==> logs[j].id != params.id.value
    ensures FindRequest(logs, params).Some? ==>
              exists i :: 0 <= i < |logs| && logs[i] == FindRequest(logs, params).value && logs[i].id == params.id.value &&
                forall j :: 0 <= j < i ==> logs[j].id != params.id.value
  {
  }

  /**
    The lookup by URL (no id given): found iff some request's URL contains the text, and
    then it is the most recent such request.
   */
  lemma FindByUrlSpec(logs: seq<NetworkEntry>, params: GetRequestDetailParams)
    requires !Truthy(params.id) && Truthy(params.url)
    ensures FindRequest(logs, params).None? <==> forall j :: 0 <= j < |logs| ==> !Includes(logs[j].url, params.url.value)
    ensures FindRequest(logs, params).Some? ==>
              exists i :: IsLastMatch(logs, UrlHas(params.url.value), i) && logs[i] == FindRequest(logs, params).value
  {
    var p := UrlHas(params.url.value);
    var m := Filter(logs, p);
    var r := FindRequest(logs, params);
    assert r == if |m| == 0 then None else Some(m[|m| - 1]);
    assert |m| == 0 <==> forall j :: 0 <= j < |logs| ==> !Includes(logs[j].url, params.url.value) by {
      FilterEmpty(logs, p);
    }
    if |m| > 0 {
      assert exists i :: IsLastMatch(logs, p, i) && logs[i] == r.value by {
        FilterLast(logs, p);
      }
    }
  }

  /** With neither an id nor a URL, nothing is found. */
  lemma FindWithoutKeys(logs: seq<NetworkEntry>, params: GetRequestDetailParams)
    requires !Truthy(params.id) && !Truthy(params.url)
    ensures FindRequest(logs, params).None?
  {
  }

  /** When ids are pairwise distinct, the lookup by an id present in the log returns exactly that request. */
  lemma FindByUniqueId(logs: seq<NetworkEntry>, k: int)
    requires 0 <= k < |logs| && logs[k].id != ""
    requires forall i, j :: 0 <= i < j < |logs| ==> logs[i].id != logs[j].id
    ensures FindRequest(logs, GetRequestDetailParams(Some(logs[k].id), None)) == Some(logs[k])
  {
    var params := GetRequestDetailParams(Some(logs[k].id), None);
    FindByIdSpec(logs, params);
  }

  /**
    After any run of the capture pipeline from a valid start, looking up a logged request by
    its id returns exactly that request: ids drawn from the counter never collide.
   */
  lemma LookupFindsLoggedRequest(p: Capture.Pipeline, evs: seq<Capture.Event>, k: int)
    requires AppState.Valid(p.state) && Capture.IdsUnique(p)
    requires 0 <= k < |AppState.NetworkLogs(Capture.Run(p, evs).state)|
    ensures var logs := AppState.NetworkLogs(Capture.Run(p, evs).state);
            FindRequest(logs, GetRequestDetailParams(Some(logs[k].id), None)) == Some(logs[k])
  {
    var logs := AppState.NetworkLogs(Capture.Run(p, evs).state);
    Capture.RunKeepsInvariants(p, evs);
    assert Capture.IdNumber(logs[k].id).Some?;
    FindByUniqueId(logs, k);
  }

  /** The detail record of one request (bodies as stored; JSON re-indenting is not modelled). */
  function DetailOf(e: NetworkEntry): (d: RequestDetail)
    ensures d.id == e.id && d.httpMethod == e.httpMethod && d.url == e.url
    ensures d.status.FailedMark? <==> e.status.None? || e.status.value == 0
    ensures d.status.Code? ==> e.status == Some(d.status.code)
    ensures d.requestHeaders == e.requestHeaders && d.responseHeaders == e.responseHeaders
    ensures d.requestBody == e.requestBody && d.responseBody == e.responseBody
    ensures d.failureReason == e.failureReason && d.contentType == e.contentType && d.timing == e.timing
  {
    RequestDetail(
      e.id, e.httpMethod, e.url, ShowStatus(e.status), e.failureReason, e.contentType,
      e.timing, e.requestHeaders, e.responseHeaders, e.requestBody, e.responseBody)
  }

  /** `getRequestDetail(params)`: the detail of the request found, or the not-found failure. */
  function GetRequestDetail(st: AppState.State, params: GetRequestDetailParams): (r: ToolResult<RequestDetail>)
    ensures r.Failure? <==> FindRequest(AppState.NetworkLogs(st), params).None?
    ensures r.Failure? ==> r.error == NotFoundMessage
    ensures r.Success? ==> r.data.url == FindRequest(AppState.NetworkLogs(st), params).value.url
    ensures r.Success? ==> exists i :: 0 <= i < |AppState.NetworkLogs(st)| && r.data == DetailOf(AppState.NetworkLogs(st)[i])
    ensures r.Success? ==> r.data == DetailOf(FindRequest(AppState.NetworkLogs(st), params).value)
  {
    var logs := AppState.NetworkLogs(st);
    match FindRequest(logs, params)
    case None => Failure(NotFoundMessage)
    case Some(e) =>
      assert e in logs by {
        if Truthy(params.id) {
          FindByIdSpec(logs, params);
        } else {
          FindByUrlSpec(logs, params);
        }
      }
      Success(DetailOf(e))
  }

  /** `clearNetwork()`: empties the network log only, and reports success. */
  function ClearNetwork(st: AppState.State): (r: (AppState.State, ToolResult<Cleared>))
    ensures r.1 == Success(Cleared(true))
    ensures |AppState.NetworkLogs(r.0)| == 0
    ensures AppState.ConsoleLogs(r.0) == AppState.ConsoleLogs(st) && AppState.SameHandles(r.0, st)
    ensures AppState.Valid(st) ==> AppState.Valid(r.0)
  {
    (AppState.ClearNetworkLogs(st), Success(Cleared(true)))
  }
}
