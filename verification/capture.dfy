/**
  The capture pipeline: browser signals become log entries. Each handler is a pure
  function from the signal's payload (plus the id counter and the current time) to at
  most one entry, followed by one atomic append to the state.
 */
module Capture {
  import opened Options
  import opened Entries
  import opened JsString
  import opened JsArray
  import AppState
  import CircularBuffer

  /** Response content types whose bodies are kept (matched as substrings). */
  const CaptureBodyTypes: seq<string> :=
    ["application/json", "text/plain", "text/html", "application/x-www-form-urlencoded"]

  /** The body size ceiling, in characters. */
  const MaxBodySize: nat := 50000

  const UnknownFailure: string := "Unknown failure"

  // ---------------------------------------------------------------- identifiers

  /** The module-level `networkIdCounter`: the number of ids issued so far. */
  datatype IdAllocator = IdAllocator(counter: nat)

  const IdPrefix: string := "req_"

  function FormatId(n: nat): string {
    IdPrefix + NatToString(n)
  }

  /** The number inside an id of the form `req_<digits>` (digits without a leading zero), if it has that form. */
  function IdNumber(id: string): Option<nat> {
    if |id| > |IdPrefix| && id[..|IdPrefix|] == IdPrefix && CanonicalDigits(id[|IdPrefix|..])
    then Some(ParseNat(id[|IdPrefix|..]))
    else None
  }

  /** An id gives back the number it was made from. */
  lemma IdNumberOfFormatId(n: nat)
    ensures IdNumber(FormatId(n)) == Some(n)
  {
    var id := FormatId(n);
    assert id[..|IdPrefix|] == IdPrefix;
    assert id[|IdPrefix|..] == NatToString(n);
    NatToStringCanonical(n);
    ParseNatToString(n);
  }

  /** Only the exact text `req_<n>` reads as id number `n`: parsing and formatting are inverse. */
  lemma IdNumberIsExact(id: string)
    ensures IdNumber(id).Some? ==> id == FormatId(IdNumber(id).value)
  {
    if IdNumber(id).Some? {
      var d := id[|IdPrefix|..];
      ToStringParseNat(d);
      assert id == id[..|IdPrefix|] + d;
    }
  }

  /** `generateNetworkId()`: bumps the counter and names the new value `req_<n>`. */
  function GenerateNetworkId(a: IdAllocator): (r: (string, IdAllocator))
    ensures r.1.counter == a.counter + 1
    ensures IdNumber(r.0) == Some(r.1.counter)
  {
    IdNumberOfFormatId(a.counter + 1);
    (FormatId(a.counter + 1), IdAllocator(a.counter + 1))
  }

  /** The ids handed out by `k` calls in a row. */
  function IssueIds(a: IdAllocator, k: nat): (ids: seq<string>)
    ensures |ids| == k
    ensures forall i :: 0 <= i < k ==> IdNumber(ids[i]) == Some(a.counter + 1 + i)
    decreases k
  {
    if k == 0 then []
    else
      var (id, next) := GenerateNetworkId(a);
      [id] + IssueIds(next, k - 1)
  }

  /** Ids issued one after another are pairwise different and their numbers go up in issue order. */
  lemma IssuedIdsIncrease(a: IdAllocator, k: nat)
    ensures forall i, j :: 0 <= i < j < k ==>
              IssueIds(a, k)[i] != IssueIds(a, k)[j] && IdNumber(IssueIds(a, k)[i]).value < IdNumber(IssueIds(a, k)[j]).value
  {
  }

  // ---------------------------------------------------------------- bodies

  /** `shouldCaptureBody(contentType)`: a non-empty content type containing an allow-listed type. */
  function ShouldCaptureBody(contentType: Option<string>): (r: bool)
    ensures r <==> Truthy(contentType) && exists t :: t in CaptureBodyTypes && Includes(contentType.value, t)
  {
    Truthy(contentType) && AnyIncluded(contentType.value, CaptureBodyTypes)
  }

  /** A charset suffix does not stop capture; an image type is never captured. */
  lemma ContentTypeExamples()
    ensures ShouldCaptureBody(Some("application/json; charset=utf-8"))
    ensures !ShouldCaptureBody(Some("image/png"))
    ensures !ShouldCaptureBody(Some(""))
    ensures !ShouldCaptureBody(None)
  {
    var json := "application/json; charset=utf-8";
    assert json[0..16] == "application/json";
    assert OccursAt(json, "application/json", 0);
    var png := "image/png";
    assert png[..9] != "text/html" by {
      assert png[0] == 'i';
    }
    assert !Includes(png, "text/html");
    assert !AnyIncluded(png, CaptureBodyTypes);
  }

  const PlaceholderHead: string := "[Body too large: "
  const PlaceholderTail: string := " bytes]"

  /** The text stored instead of a body that is over the ceiling. */
  function Placeholder(size: nat): string {
    PlaceholderHead + NatToString(size) + PlaceholderTail
  }

  /** The size a placeholder reports, if `s` has the placeholder's shape. */
  function ReportedSize(s: string): Option<nat> {
    var h := |PlaceholderHead|;
    var t := |PlaceholderTail|;
    if |s| > h + t && s[..h] == PlaceholderHead && s[|s| - t..] == PlaceholderTail && CanonicalDigits(s[h..|s| - t])
    then Some(ParseNat(s[h..|s| - t]))
    else None
  }

  /** A placeholder reports exactly the size it was made for. */
  lemma PlaceholderReportsSize(size: nat)
    ensures ReportedSize(Placeholder(size)) == Some(size)
  {
    var p := Placeholder(size);
    var d := NatToString(size);
    var h := |PlaceholderHead|;
    var t := |PlaceholderTail|;
    assert p[..h] == PlaceholderHead;
    assert p[|p| - t..] == PlaceholderTail;
    assert p[h..|p| - t] == d;
    NatToStringCanonical(size);
    ParseNatToString(size);
  }

  /** Only the exact placeholder text reads as a size: no padded or otherwise altered form does. */
  lemma ReportedSizeIsExact(s: string)
    ensures ReportedSize(s).Some? ==> s == Placeholder(ReportedSize(s).value)
  {
    if ReportedSize(s).Some? {
      var h := |PlaceholderHead|;
      var t := |PlaceholderTail|;
      var d := s[h..|s| - t];
      ToStringParseNat(d);
      assert s == s[..h] + d + s[|s| - t..];
    }
  }

  /** The ceiling rule shared by request and response bodies. */
  function CapBody(body: string): (r: string)
    ensures |body| <= MaxBodySize ==> r == body
    ensures |body| > MaxBodySize ==> r == Placeholder(|body|) && ReportedSize(r) == Some(|body|)
  {
    if |body| <= MaxBodySize then body
    else
      PlaceholderReportsSize(|body|);
      Placeholder(|body|)
  }

  /** A body one character over the ceiling is replaced by a placeholder naming its full size. */
  lemma CeilingExample(body: string)
    requires |body| == 50001
    ensures CapBody(body) == "[Body too large: 50001 bytes]"
  {
    assert CapBody(body) == Placeholder(50001);
    assert Placeholder(50001) == "[Body too large: 50001 bytes]" by {
      assert NatToString(50001) == "50001";
    }
  }

  /** The outcome of a driver accessor that may throw. */
  datatype Read<T> = Threw | Returned(value: T)

  /**
    `getRequestBody(request)`: a non-empty post body under the ceiling verbatim, a
    longer one as its placeholder; no body, an empty body or a throwing accessor give nothing.
   */
  function GetRequestBody(postData: Read<Option<string>>): (r: Option<string>)
    ensures r.Some? <==> postData.Returned? && Truthy(postData.value)
    ensures r.Some? && |postData.value.value| <= MaxBodySize ==> r.value == postData.value.value
    ensures r.Some? && |postData.value.value| > MaxBodySize ==> ReportedSize(r.value) == Some(|postData.value.value|)
    ensures r.Some? ==> r.value == CapBody(postData.value.value)
  {
    match postData
    case Threw => None
    case Returned(data) => if Truthy(data) then Some(CapBody(data.value)) else None
  }

  // ---------------------------------------------------------------- signals

  /** A console message: its type (`log`, `error`, ...), text and source location. */
  datatype ConsoleMessage = ConsoleMessage(kind: string, text: string, location: Option<Location>)

  /** An uncaught page error. */
  datatype PageError = PageError(name: string, message: string, stack: Option<string>)

  /** What the driver exposes about a request. */
  datatype Request = Request(
    httpMethod: string,
    url: string,
    headers: Headers,
    postData: Read<Option<string>>,
    timing: Option<Timing>,
    failure: Option<string>)

  /** What the driver exposes about a response; `body` is the outcome of reading its text. */
  datatype Response = Response(status: int, headers: Headers, body: Read<string>)

  /** The console handler's entry: the message's type, text and location, stamped `now`. */
  function ConsoleEntryOf(msg: ConsoleMessage, now: int): (e: ConsoleEntry)
    ensures e.level == msg.kind && e.text == msg.text && e.location == msg.location && e.timestamp == now
  {
    ConsoleEntry(msg.kind, msg.text, msg.location, now)
  }

  /** The page-error handler's entry: level `error`, text `name: message` then the stack on a new line. */
  function PageErrorEntry(err: PageError, now: int): (e: ConsoleEntry)
    ensures e.level == "error" && e.location.None? && e.timestamp == now
    ensures e.text == err.name + ": " + err.message + "\n" + err.stack.GetOr("")
  {
    var stack := if err.stack.Some? && err.stack.value != "" then err.stack.value else "";
    ConsoleEntry("error", err.name + ": " + err.message + "\n" + stack, None, now)
  }

  /** The response's content-type header, absent when there is no response or no such header. */
  function ContentTypeOf(response: Option<Response>): (ct: Option<string>)
    ensures ct.Some? <==> response.Some? && "content-type" in response.value.headers
    ensures ct.Some? ==> ct.value == response.value.headers["content-type"]
  {
    if response.Some? && "content-type" in response.value.headers
    then Some(response.value.headers["content-type"])
    else None
  }

  /** The response body kept for an entry: only with a response whose content type passes the gate. */
  function ResponseBodyOf(response: Option<Response>, contentType: Option<string>): (r: Option<string>)
    ensures r.Some? <==> response.Some? && ShouldCaptureBody(contentType) && response.value.body.Returned?
    ensures r.Some? ==> r.value == CapBody(response.value.body.value)
  {
    if response.Some? && ShouldCaptureBody(contentType) then
      match response.value.body
      case Threw => None
      case Returned(text) => Some(CapBody(text))
    else None
  }

  /**
    The `requestfinished` handler. `lookup` is the outcome of awaiting the response: if it
    throws the request is dropped and no id is drawn; otherwise one id is drawn and one
    entry is built. The request body is never gated by content type.
   */
  function OnRequestFinished(req: Request, lookup: Read<Option<Response>>, ids: IdAllocator, now: int)
    : (r: (Option<NetworkEntry>, IdAllocator))
    ensures lookup.Threw? ==> r.0.None? && r.1 == ids
    ensures lookup.Returned? ==> r.0.Some? && r.1.counter == ids.counter + 1
    ensures r.0.Some? ==> IdNumber(r.0.value.id) == Some(r.1.counter)
    ensures r.0.Some? ==>
              && r.0.value.httpMethod == req.httpMethod && r.0.value.url == req.url
              && r.0.value.timestamp == now && r.0.value.failureReason.None?
              && r.0.value.requestBody == GetRequestBody(req.postData)
              && (r.0.value.status.Some? <==> lookup.value.Some?)
              && (r.0.value.responseBody.Some? ==> lookup.value.Some? && ShouldCaptureBody(r.0.value.contentType))
    ensures r.0.Some? ==>
              && r.0.value.status == (if lookup.value.Some? then Some(lookup.value.value.status) else None)
              && r.0.value.contentType == ContentTypeOf(lookup.value)
              && r.0.value.responseBody == ResponseBodyOf(lookup.value, r.0.value.contentType)
              && r.0.value.timing == req.timing
              && r.0.value.requestHeaders == Some(req.headers)
              && r.0.value.responseHeaders == (if lookup.value.Some? then Some(lookup.value.value.headers) else None)
  {
    match lookup
    case Threw => (None, ids)
    case Returned(response) =>
      var contentType := ContentTypeOf(response);
      var (id, next) := GenerateNetworkId(ids);
      var entry := NetworkEntry(
        id := id,
        httpMethod := req.httpMethod,
        url := req.url,
        status := if response.Some? then Some(response.value.status) else None,
        contentType := contentType,
        timing := req.timing,
        requestHeaders := Some(req.headers),
        responseHeaders := if response.Some? then Some(response.value.headers) else None,
        requestBody := GetRequestBody(req.postData),
        responseBody := ResponseBodyOf(response, contentType),
        timestamp := now,
        failureReason := None);
      (Some(entry), next)
  }

  /** The reason a failed request records: the driver's error text, or a fixed phrase when it gives none. */
  function FailureReason(failure: Option<string>): (r: string)
    ensures r != ""
    ensures Truthy(failure) ==> r == failure.value
    ensures !Truthy(failure) ==> r == UnknownFailure
  {
    if Truthy(failure) then failure.value else UnknownFailure
  }

  /**
    The `requestfailed` handler: always one entry, with status 0 (not an absent status),
    the driver's error text or "Unknown failure", the request body under the ceiling
    rule, and no response fields.
   */
  function OnRequestFailed(req: Request, ids: IdAllocator, now: int): (r: (NetworkEntry, IdAllocator))
    ensures r.1.counter == ids.counter + 1 && IdNumber(r.0.id) == Some(r.1.counter)
    ensures r.0.status == Some(0) && IsFailedStatus(r.0.status)
    ensures r.0.failureReason == Some(FailureReason(req.failure))
    ensures r.0.httpMethod == req.httpMethod && r.0.url == req.url && r.0.timestamp == now
    ensures r.0.requestBody == GetRequestBody(req.postData)
    ensures r.0.requestHeaders == Some(req.headers)
    ensures r.0.contentType.None? && r.0.responseBody.None? && r.0.responseHeaders.None? && r.0.timing.None?
  {
    var (id, next) := GenerateNetworkId(ids);
    var entry := NetworkEntry(
      id := id,
      httpMethod := req.httpMethod,
      url := req.url,
      status := Some(0),
      contentType := None,
      timing := None,
      requestHeaders := Some(req.headers),
      responseHeaders := None,
      requestBody := GetRequestBody(req.postData),
      responseBody := None,
      timestamp := now,
      failureReason := Some(FailureReason(req.failure)));
    (entry, next)
  }

  // ---------------------------------------------------------------- pipeline

  /**
    One browser signal with the time its handler's `Date.now()` reads: for a finished
    request that is after the response is awaited but before its body is read.
   */
  datatype Signal =
    | ConsoleSignal(msg: ConsoleMessage, now: int)
    | PageErrorSignal(err: PageError, now: int)
    | RequestFinishedSignal(req: Request, lookup: Read<Option<Response>>, now: int)
    | RequestFailedSignal(req: Request, now: int)

  /** The shared state together with the id counter. */
  datatype Pipeline = Pipeline(state: AppState.State, ids: IdAllocator)

  /** Runs one handler to completion: at most one entry, appended in one step. */
  function HandleSignal(p: Pipeline, sig: Signal): (r: Pipeline)
    ensures AppState.Valid(p.state) ==> AppState.Valid(r.state)
    ensures AppState.SameHandles(r.state, p.state)
    ensures r.state.consoleBuffer.maxSize == p.state.consoleBuffer.maxSize
    ensures r.state.networkBuffer.maxSize == p.state.networkBuffer.maxSize
    ensures sig.ConsoleSignal? || sig.PageErrorSignal? ==>
              r.ids == p.ids && r.state.networkBuffer == p.state.networkBuffer
    ensures sig.RequestFinishedSignal? || sig.RequestFailedSignal? ==>
              r.state.consoleBuffer == p.state.consoleBuffer
    ensures sig.RequestFinishedSignal? && sig.lookup.Threw? ==> r == p
  {
    match sig
    case ConsoleSignal(msg, now) =>
      Pipeline(AppState.AddConsoleLog(p.state, ConsoleEntryOf(msg, now)), p.ids)
    case PageErrorSignal(err, now) =>
      Pipeline(AppState.AddConsoleLog(p.state, PageErrorEntry(err, now)), p.ids)
    case RequestFinishedSignal(req, lookup, now) =>
      var (entry, ids) := OnRequestFinished(req, lookup, p.ids, now);
      if entry.Some? then Pipeline(AppState.AddNetworkLog(p.state, entry.value), ids) else p
    case RequestFailedSignal(req, now) =>
      var (entry, ids) := OnRequestFailed(req, p.ids, now);
      Pipeline(AppState.AddNetworkLog(p.state, entry), ids)
  }

  /** A console signal or page error appends exactly one entry (the oldest goes if the log is full). */
  lemma ConsoleSignalAppendsOne(p: Pipeline, sig: Signal)
    requires AppState.Valid(p.state)
    requires sig.ConsoleSignal? || sig.PageErrorSignal?
    ensures var e := if sig.ConsoleSignal? then ConsoleEntryOf(sig.msg, sig.now) else PageErrorEntry(sig.err, sig.now);
            AppState.ConsoleLogs(HandleSignal(p, sig).state)
              == Last(AppState.ConsoleLogs(p.state) + [e], p.state.consoleBuffer.maxSize)
  {
    var e := if sig.ConsoleSignal? then ConsoleEntryOf(sig.msg, sig.now) else PageErrorEntry(sig.err, sig.now);
    CircularBuffer.PushWindow(p.state.consoleBuffer, e);
  }

  /**
    A failed request always appends exactly one entry; a finished request appends
    exactly one unless its response lookup threw, in which case nothing changes.
   */
  lemma NetworkSignalAppendsAtMostOne(p: Pipeline, sig: Signal)
    requires AppState.Valid(p.state)
    requires sig.RequestFinishedSignal? || sig.RequestFailedSignal?
    ensures sig.RequestFailedSignal? ==>
              AppState.NetworkLogs(HandleSignal(p, sig).state)
                == Last(AppState.NetworkLogs(p.state) + [OnRequestFailed(sig.req, p.ids, sig.now).0], p.state.networkBuffer.maxSize)
    ensures sig.RequestFinishedSignal? && sig.lookup.Returned? ==>
              AppState.NetworkLogs(HandleSignal(p, sig).state)
                == Last(AppState.NetworkLogs(p.state) + [OnRequestFinished(sig.req, sig.lookup, p.ids, sig.now).0.value],
                        p.state.networkBuffer.maxSize)
    ensures sig.RequestFinishedSignal? && sig.lookup.Threw? ==> HandleSignal(p, sig) == p
  {
    if sig.RequestFailedSignal? {
      CircularBuffer.PushWindow(p.state.networkBuffer, OnRequestFailed(sig.req, p.ids, sig.now).0);
    } else if sig.lookup.Returned? {
      CircularBuffer.PushWindow(p.state.networkBuffer, OnRequestFinished(sig.req, sig.lookup, p.ids, sig.now).0.value);
    }
  }

  /** Everything that changes the pipeline: a captured signal, or a clear or reset from the query side. */
  datatype Event =
    | Captured(signal: Signal)
    | ConsoleCleared
    | NetworkCleared
    | WasReset

  function Step(p: Pipeline, ev: Event): Pipeline {
    match ev
    case Captured(sig) => HandleSignal(p, sig)
    case ConsoleCleared => p.(state := AppState.ClearConsoleLogs(p.state))
    case NetworkCleared => p.(state := AppState.ClearNetworkLogs(p.state))
    case WasReset => p.(state := AppState.Reset(p.state))
  }

  function Run(p: Pipeline, evs: seq<Event>): Pipeline
    decreases |evs|
  {
    if |evs| == 0 then p else Run(Step(p, evs[0]), evs[1..])
  }

  /**
    Every network entry in the log carries an id `req_<n>` with `n` no larger than the
    counter, and no two entries share an id.
   */
  ghost predicate IdsUnique(p: Pipeline) {
    var logs := AppState.NetworkLogs(p.state);
    && (forall i :: 0 <= i < |logs| ==> IdNumber(logs[i].id).Some? && IdNumber(logs[i].id).value <= p.ids.counter)
    && (forall i, j :: 0 <= i < j < |logs| ==> logs[i].id != logs[j].id)
  }

  /** Appending an entry whose id is numbered above the counter keeps ids unique under the new counter. */
  lemma AppendFreshKeepsUnique(p: Pipeline, e: NetworkEntry, ids: IdAllocator)
    requires IdsUnique(p)
    requires ids.counter == p.ids.counter + 1 && IdNumber(e.id) == Some(ids.counter)
    ensures IdsUnique(Pipeline(AppState.AddNetworkLog(p.state, e), ids))
  {
    var old_ := AppState.NetworkLogs(p.state);
    var r := Pipeline(AppState.AddNetworkLog(p.state, e), ids);
    var logs := AppState.NetworkLogs(r.state);
    var k := |old_| + 1 - |logs|;
    assert logs == old_[k..] + [e];
    forall i | 0 <= i < |logs|
      ensures IdNumber(logs[i].id).Some? && IdNumber(logs[i].id).value <= ids.counter
    {
      if i < |logs| - 1 {
        assert logs[i] == old_[k + i];
      }
    }
    forall i, j | 0 <= i < j < |logs|
      ensures logs[i].id != logs[j].id
    {
      assert logs[i] == old_[k + i];
      if j < |logs| - 1 {
        assert logs[j] == old_[k + j];
      } else {
        assert IdNumber(logs[i].id).value <= p.ids.counter;
      }
    }
  }

  /** A pipeline whose network log is unchanged and whose counter has not dropped keeps ids unique. */
  lemma SameNetworkKeepsUnique(p: Pipeline, q: Pipeline)
    requires IdsUnique(p)
    requires AppState.NetworkLogs(q.state) == AppState.NetworkLogs(p.state) && q.ids.counter >= p.ids.counter
    ensures IdsUnique(q)
  {
  }

  /** One step keeps the bounds and the uniqueness of network ids. */
  lemma StepKeepsInvariants(p: Pipeline, ev: Event)
    requires AppState.Valid(p.state) && IdsUnique(p)
    ensures AppState.Valid(Step(p, ev).state) && IdsUnique(Step(p, ev))
    ensures Step(p, ev).ids.counter >= p.ids.counter
  {
    var q := Step(p, ev);
    match ev
    case Captured(sig) => {
      match sig
      case ConsoleSignal(_, _) =>
        SameNetworkKeepsUnique(p, q);
      case PageErrorSignal(_, _) =>
        SameNetworkKeepsUnique(p, q);
      case RequestFinishedSignal(req, lookup, now) =>
        var (entry, ids) := OnRequestFinished(req, lookup, p.ids, now);
        if entry.Some? {
          AppendFreshKeepsUnique(p, entry.value, ids);
        } else {
          SameNetworkKeepsUnique(p, q);
        }
      case RequestFailedSignal(req, now) =>
        var (entry, ids) := OnRequestFailed(req, p.ids, now);
        AppendFreshKeepsUnique(p, entry, ids);
    }
    case ConsoleCleared =>
      assert q == p.(state := AppState.ClearConsoleLogs(p.state));
      SameNetworkKeepsUnique(p, q);
    case NetworkCleared =>
      assert |AppState.NetworkLogs(q.state)| == 0;
    case WasReset =>
      assert |AppState.NetworkLogs(q.state)| == 0;
  }

  /**
    Over any interleaving of signals, clears and resets, starting from a valid pipeline
    whose ids are unique, both logs stay within capacity and no two network entries share an id.
   */
  lemma {:induction false} RunKeepsInvariants(p: Pipeline, evs: seq<Event>)
    requires AppState.Valid(p.state) && IdsUnique(p)
    ensures AppState.Valid(Run(p, evs).state) && IdsUnique(Run(p, evs))
    decreases |evs|
  {
    if |evs| > 0 {
      StepKeepsInvariants(p, evs[0]);
      RunKeepsInvariants(Step(p, evs[0]), evs[1..]);
    }
  }

  /** The server's starting pipeline satisfies both invariants. */
  lemma StartIsValid()
    ensures AppState.Valid(Pipeline(AppState.Default(), IdAllocator(0)).state)
    ensures IdsUnique(Pipeline(AppState.Default(), IdAllocator(0)))
  {
  }
}
