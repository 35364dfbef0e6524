/**
  Error correlation and the debug summary: choosing the error to explain, the network
  requests around it, the recent failed requests, the lexical classification of the
  error text, the suggestion list, and the console and network counts.
 */
module DebugTool {
  import opened Options
  import opened Entries
  import opened JsString
  import opened JsArray
  import AppState
  import ConsoleTool
  import CircularBuffer

  /** A request is near the error when its time differs by strictly less than this. */
  const WindowMs: int := 5000
  /** URLs in the error context are cut to this length (without an ellipsis). */
  const ContextUrlLength: nat := 100
  const MaxFailedShown: nat := 5
  const MaxRecentErrors: nat := 3
  const RecentErrorLength: nat := 100

  const NoErrorMessage: string := "No error found. Check get_console for available errors."

  datatype ExplainErrorParams = ExplainErrorParams(index: Option<int>, search: Option<string>)

  /** The page's URL and title, as the driver reports them at query time. */
  datatype PageInfo = PageInfo(url: string, title: string)

  // ---------------------------------------------------------------- the anchor error

  /** The console entries with level "error", in log order. */
  function ErrorsOf(logs: seq<ConsoleEntry>): seq<ConsoleEntry> {
    Filter(logs, ConsoleTool.LevelIs("error"))
  }

  /**
    The error `explainError` explains: with a non-empty search, the first error whose text
    contains it ignoring case; otherwise the error at `index`, which defaults to the most
    recent one. An index outside the error list finds nothing.
   */
  function ResolveAnchor(logs: seq<ConsoleEntry>, params: ExplainErrorParams): Option<ConsoleEntry> {
    var errors := ErrorsOf(logs);
    if Truthy(params.search) then Find(errors, ConsoleTool.TextContains(params.search.value))
    else
      var idx := params.index.GetOr(|errors| - 1);
      if 0 <= idx < |errors| then Some(errors[idx]) else None
  }

  /** Whatever is chosen is an error-level entry of the log. */
  lemma AnchorIsError(logs: seq<ConsoleEntry>, params: ExplainErrorParams)
    ensures ResolveAnchor(logs, params).Some? ==>
              ResolveAnchor(logs, params).value in logs && ResolveAnchor(logs, params).value.level == "error"
  {
    var errors := ErrorsOf(logs);
    var r := ResolveAnchor(logs, params);
    if r.Some? {
      assert r.value in errors;
    }
  }

  /**
    A non-empty search wins over any index: nothing is found iff no error-level entry
    contains the search text ignoring case, and otherwise the earliest such error is chosen.
   */
  lemma AnchorBySearch(logs: seq<ConsoleEntry>, params: ExplainErrorParams)
    requires Truthy(params.search)
    ensures ResolveAnchor(logs, params).None? <==>
              forall j :: 0 <= j < |logs| && logs[j].level == "error" ==>
                !Includes(ToLower(logs[j].text), ToLower(params.search.value))
    ensures ResolveAnchor(logs, params).Some? ==>
              exists i :: 0 <= i < |ErrorsOf(logs)| && ErrorsOf(logs)[i] == ResolveAnchor(logs, params).value &&
                Includes(ToLower(ErrorsOf(logs)[i].text), ToLower(params.search.value)) &&
                forall j :: 0 <= j < i ==> !Includes(ToLower(ErrorsOf(logs)[j].text), ToLower(params.search.value))
  {
    var errors := ErrorsOf(logs);
    var q := ConsoleTool.TextContains(params.search.value);
    var r := ResolveAnchor(logs, params);
    assert r == Find(errors, q);
    if r.None? {
      forall j | 0 <= j < |logs| && logs[j].level == "error"
        ensures !q(logs[j])
      {
        assert ConsoleTool.LevelIs("error")(logs[j]);
        assert logs[j] in errors;
      }
    } else {
      var i :| 0 <= i < |errors| && errors[i] == r.value && q(errors[i]);
      assert errors[i] in logs;
    }
  }

  /**
    Without a search or index the most recent error is chosen: nothing is found iff the log
    holds no error, and otherwise no error comes after the one chosen.
   */
  lemma AnchorDefaultsToLatest(logs: seq<ConsoleEntry>, params: ExplainErrorParams)
    requires !Truthy(params.search) && params.index.None?
    ensures ResolveAnchor(logs, params).None? <==> forall j :: 0 <= j < |logs| ==> logs[j].level != "error"
    ensures ResolveAnchor(logs, params).Some? ==>
              exists i :: IsLastMatch(logs, ConsoleTool.LevelIs("error"), i) && logs[i] == ResolveAnchor(logs, params).value
  {
    var p := ConsoleTool.LevelIs("error");
    var errors := ErrorsOf(logs);
    var r := ResolveAnchor(logs, params);
    assert r == if |errors| == 0 then None else Some(errors[|errors| - 1]);
    assert |errors| == 0 <==> forall j :: 0 <= j < |logs| ==> logs[j].level != "error" by {
      FilterEmpty(logs, p);
    }
    if |errors| > 0 {
      assert exists i :: IsLastMatch(logs, p, i) && logs[i] == r.value by {
        FilterLast(logs, p);
      }
    }
  }

  /**
    An explicit index (0 included) is honoured without a search: something is found iff the
    index is a position in the error list, and it is the error at that position.
   */
  lemma AnchorByIndex(logs: seq<ConsoleEntry>, params: ExplainErrorParams)
    requires !Truthy(params.search) && params.index.Some?
    ensures ResolveAnchor(logs, params).Some? <==> 0 <= params.index.value < |ErrorsOf(logs)|
    ensures ResolveAnchor(logs, params).Some? ==> ResolveAnchor(logs, params).value == ErrorsOf(logs)[params.index.value]
  {
  }

  /** Index 0 is the earliest error in the log. */
  lemma AnchorIndexZeroIsEarliest(logs: seq<ConsoleEntry>)
    requires exists j :: 0 <= j < |logs| && logs[j].level == "error"
    ensures ResolveAnchor(logs, ExplainErrorParams(Some(0), None)) == Find(logs, ConsoleTool.LevelIs("error"))
    ensures Find(logs, ConsoleTool.LevelIs("error")).Some?
  {
    var p := ConsoleTool.LevelIs("error");
    var errors := ErrorsOf(logs);
    assert |errors| > 0 by {
      var j :| 0 <= j < |logs| && logs[j].level == "error";
      assert p(logs[j]);
      FilterEmpty(logs, p);
    }
    assert Find(logs, p) == Some(errors[0]) by {
      FilterHeadIsFind(logs, p);
    }
  }

  // ---------------------------------------------------------------- the error context

  function Abs(x: int): nat {
    if x < 0 then -x else x
  }

  /** Whether a request lies strictly within `WindowMs` of time `t`, on either side. */
  function Near(t: int): NetworkEntry -> bool {
    (e: NetworkEntry) => Abs(e.timestamp - t) < WindowMs
  }

  /** A request in the error context (the time stays a number). */
  datatype NearbyRequest = NearbyRequest(httpMethod: string, url: string, status: Option<int>, timestamp: int)

  function NearbyOf(e: NetworkEntry): NearbyRequest {
    NearbyRequest(e.httpMethod, Take(e.url, ContextUrlLength), e.status, e.timestamp)
  }

  /** The requests around time `t`, in log order, with URLs cut to 100 characters and the raw status. */
  function RecentNetwork(network: seq<NetworkEntry>, t: int): (r: seq<NearbyRequest>)
    ensures |r| == |Filter(network, Near(t))| <= |network|
    ensures forall i :: 0 <= i < |r| ==> r[i] == NearbyOf(Filter(network, Near(t))[i])
    ensures forall i :: 0 <= i < |r| ==>
              exists j :: 0 <= j < |network| && Abs(network[j].timestamp - t) < WindowMs && r[i] == NearbyOf(network[j])
  {
    var near := Filter(network, Near(t));
    var r := seq(|near|, i requires 0 <= i < |near| => NearbyOf(near[i]));
    assert forall i :: 0 <= i < |r| ==> near[i] in network && Near(t)(near[i]);
    r
  }

  /** The window is complete: every request strictly within it is shown. */
  lemma RecentNetworkComplete(network: seq<NetworkEntry>, t: int)
    ensures forall j :: 0 <= j < |network| && Abs(network[j].timestamp - t) < WindowMs ==>
              NearbyOf(network[j]) in RecentNetwork(network, t)
  {
    var near := Filter(network, Near(t));
    var r := RecentNetwork(network, t);
    forall j | 0 <= j < |network| && Abs(network[j].timestamp - t) < WindowMs
      ensures NearbyOf(network[j]) in r
    {
      assert Near(t)(network[j]);
      var k :| 0 <= k < |near| && near[k] == network[j];
      assert r[k] == NearbyOf(network[j]);
    }
  }

  /** The window is strict: 4999 ms away is inside, 5000 ms away on either side is not. */
  lemma WindowIsStrict(e: NetworkEntry)
    ensures Near(10000)(e.(timestamp := 5001)) && Near(10000)(e.(timestamp := 14999))
    ensures !Near(10000)(e.(timestamp := 5000)) && !Near(10000)(e.(timestamp := 15000))
  {
  }

  /** A failed request as the error context shows it. */
  datatype FailedRequest = FailedRequest(httpMethod: string, url: string, status: StatusView)

  function FailedOf(e: NetworkEntry): FailedRequest {
    FailedRequest(e.httpMethod, Take(e.url, ContextUrlLength), ShowStatus(e.status))
  }

  function IsFailedEntry(): NetworkEntry -> bool {
    (e: NetworkEntry) => IsFailedStatus(e.status)
  }

  /** The newest failed requests behind `FailedRequests`, whatever their time. */
  function LastFailed(network: seq<NetworkEntry>): seq<NetworkEntry> {
    SliceFrom(Filter(network, IsFailedEntry()), -(MaxFailedShown as int))
  }

  /** Every request behind the failed list is a failed request of the log. */
  lemma LastFailedAreFailed(network: seq<NetworkEntry>)
    ensures |LastFailed(network)| == Min(MaxFailedShown, |Filter(network, IsFailedEntry())|)
    ensures forall i :: 0 <= i < |LastFailed(network)| ==>
              LastFailed(network)[i] in network && IsFailedStatus(LastFailed(network)[i].status)
  {
    var all := Filter(network, IsFailedEntry());
    var failed := LastFailed(network);
    var k := |all| - |failed|;
    assert failed == all[k..];
    forall i | 0 <= i < |failed|
      ensures failed[i] in network && IsFailedStatus(failed[i].status)
    {
      assert failed[i] == all[k + i];
      assert all[k + i] in all;
    }
  }

  /**
    The last five (or fewer) requests whose status is absent, 0 or an error code, in log
    order; each shows its status as "failed" or as that error code.
   */
  function FailedRequests(network: seq<NetworkEntry>): (r: seq<FailedRequest>)
    ensures |r| == Min(MaxFailedShown, |Filter(network, IsFailedEntry())|)
    ensures forall i :: 0 <= i < |r| ==> r[i].status.FailedMark? || r[i].status.code >= 400
    ensures forall i :: 0 <= i < |r| ==> exists j :: 0 <= j < |network| && IsFailedStatus(network[j].status) && r[i] == FailedOf(network[j])
  {
    var failed := LastFailed(network);
    LastFailedAreFailed(network);
    var r := seq(|failed|, i requires 0 <= i < |failed| => FailedOf(failed[i]));
    assert forall i :: 0 <= i < |r| ==> r[i] == FailedOf(failed[i]) && failed[i] in network;
    r
  }

  /** The failed list is taken from the newest failed requests: it is the last five of them. */
  lemma FailedAreNewest(network: seq<NetworkEntry>)
    ensures LastFailed(network) == Last(Filter(network, IsFailedEntry()), MaxFailedShown)
    ensures |FailedRequests(network)| == |LastFailed(network)|
    ensures forall i :: 0 <= i < |FailedRequests(network)| ==> FailedRequests(network)[i] == FailedOf(LastFailed(network)[i])
  {
  }

  // ---------------------------------------------------------------- classification

  /** One row of the error-type table: the texts that trigger it, the type, the category. */
  datatype TypeRule = TypeRule(needles: seq<string>, typeName: string, category: string)

  /** The error-type table in the order the rules are tried. */
  const TypeRules: seq<TypeRule> := [
    TypeRule(["TypeError"], "TypeError", "Runtime error - likely null/undefined access"),
    TypeRule(["ReferenceError"], "ReferenceError", "Variable or function not defined"),
    TypeRule(["SyntaxError"], "SyntaxError", "Code syntax issue"),
    TypeRule(["NetworkError", "Failed to fetch"], "NetworkError", "Network request failed - check CORS or endpoint"),
    TypeRule(["CORS"], "CORSError", "Cross-Origin Resource Sharing blocked"),
    TypeRule(["ChunkLoadError"], "ChunkLoadError", "Failed to load code chunk - possible deployment issue")
  ]

  /** Whether row `k` of the table fires on `text`: some of its triggers occurs in it. */
  predicate Fires(text: string, k: int)
    requires 0 <= k < |TypeRules|
  {
    AnyIncluded(text, TypeRules[k].needles)
  }

  /** The React sub-kinds, tried in order once the text mentions React: trigger, kind, hint. */
  datatype ReactRule = ReactRule(needle: string, kind: string, hint: string)

  const ReactRules: seq<ReactRule> := [
    ReactRule("Invalid hook call", "hooks-violation", "Hooks must be called inside function components, not conditionally"),
    ReactRule("Cannot update a component", "state-update-during-render", "Component is updating state during render - use useEffect"),
    ReactRule("Maximum update depth exceeded", "infinite-loop", "Infinite re-render loop detected - check useEffect dependencies"),
    ReactRule("Each child in a list", "missing-key", "Add unique key prop to list items")
  ]

  const ServerHint: string := "Server/Lambda error - check CloudWatch logs"
  const AuthHint: string := "Authentication/Authorization issue - check tokens"

  /** What `analyzeError` reports; an absent field or a false flag is a key the source leaves unset. */
  datatype Analysis = Analysis(
    errorType: Option<string>,
    category: Option<string>,
    framework: Option<string>,
    reactError: Option<string>,
    hint: Option<string>,
    serverError: bool,
    authError: bool)

  /** The source's if/else-if chain over the error type. */
  function DetectType(text: string): Option<TypeRule> {
    if Includes(text, "TypeError") then Some(TypeRules[0])
    else if Includes(text, "ReferenceError") then Some(TypeRules[1])
    else if Includes(text, "SyntaxError") then Some(TypeRules[2])
    else if Includes(text, "NetworkError") || Includes(text, "Failed to fetch") then Some(TypeRules[3])
    else if Includes(text, "CORS") then Some(TypeRules[4])
    else if Includes(text, "ChunkLoadError") then Some(TypeRules[5])
    else None
  }

  /** Each row of the table fires exactly on the test its branch of the chain makes. */
  lemma RowsMatchChain(text: string)
    ensures Fires(text, 0) == Includes(text, "TypeError")
    ensures Fires(text, 1) == Includes(text, "ReferenceError")
    ensures Fires(text, 2) == Includes(text, "SyntaxError")
    ensures Fires(text, 3) == (Includes(text, "NetworkError") || Includes(text, "Failed to fetch"))
    ensures Fires(text, 4) == Includes(text, "CORS")
    ensures Fires(text, 5) == Includes(text, "ChunkLoadError")
  {
    assert TypeRules[0].needles[0] == "TypeError";
    assert TypeRules[1].needles[0] == "ReferenceError";
    assert TypeRules[2].needles[0] == "SyntaxError";
    assert TypeRules[3].needles[0] == "NetworkError" && TypeRules[3].needles[1] == "Failed to fetch";
    assert TypeRules[4].needles[0] == "CORS";
    assert TypeRules[5].needles[0] == "ChunkLoadError";
  }

  /**
    The chain is the table read top-down: no type is reported iff no row fires, and the
    type reported is that of the first row that fires.
   */
  lemma DetectTypeIsFirstRule(text: string)
    ensures DetectType(text).None? <==> forall k :: 0 <= k < |TypeRules| ==> !Fires(text, k)
    ensures DetectType(text).Some? ==>
              exists k :: 0 <= k < |TypeRules| && DetectType(text).value == TypeRules[k] && Fires(text, k) &&
                forall j :: 0 <= j < k ==> !Fires(text, j)
  {
    RowsMatchChain(text);
    var d := DetectType(text);
    if d.Some? {
      var k := if Fires(text, 0) then 0 else if Fires(text, 1) then 1 else if Fires(text, 2) then 2
               else if Fires(text, 3) then 3 else if Fires(text, 4) then 4 else 5;
      assert d.value == TypeRules[k] && Fires(text, k);
      assert forall j :: 0 <= j < k ==> !Fires(text, j);
    } else {
      assert forall k :: 0 <= k < |TypeRules| ==> !Fires(text, k);
    }
  }

  /** The source's React sub-kind chain. */
  function DetectReact(text: string): (r: Option<ReactRule>)
    ensures r.Some? ==>
              exists k :: 0 <= k < |ReactRules| && r.value == ReactRules[k] &&
                forall j :: 0 <= j < k ==> !Includes(text, ReactRules[j].needle)
    ensures r.Some? ==> Includes(text, r.value.needle)
    ensures r.None? <==> forall k :: 0 <= k < |ReactRules| ==> !Includes(text, ReactRules[k].needle)
  {
    assert ReactRules[0].needle == "Invalid hook call";
    assert ReactRules[1].needle == "Cannot update a component";
    assert ReactRules[2].needle == "Maximum update depth exceeded";
    assert ReactRules[3].needle == "Each child in a list";
    if Includes(text, "Invalid hook call") then Some(ReactRules[0])
    else if Includes(text, "Cannot update a component") then Some(ReactRules[1])
    else if Includes(text, "Maximum update depth exceeded") then Some(ReactRules[2])
    else if Includes(text, "Each child in a list") then Some(ReactRules[3])
    else None
  }

  predicate MentionsServerError(text: string) {
    Includes(text, "502") || Includes(text, "503") || Includes(text, "504")
  }

  predicate MentionsAuthError(text: string) {
    Includes(text, "401") || Includes(text, "403")
  }

  /**
    `analyzeError(text)`. The type and category come from one rule; the framework and React
    kind only when the text mentions React; `hint` is written by the React rule, then the
    server rule, then the auth rule, so the last one that fires wins.
   */
  function AnalyzeError(text: string): (a: Analysis)
    ensures a.errorType.Some? <==> a.category.Some?
    ensures a.errorType == (if DetectType(text).Some? then Some(DetectType(text).value.typeName) else None)
    ensures a.category == (if DetectType(text).Some? then Some(DetectType(text).value.category) else None)
    ensures a.reactError == (if Includes(text, "React") && DetectReact(text).Some? then Some(DetectReact(text).value.kind) else None)
    ensures a.errorType.Some? <==> exists k :: 0 <= k < |TypeRules| && Fires(text, k)
    ensures a.framework.Some? <==> Includes(text, "React")
    ensures a.framework.Some? ==> a.framework.value == "React"
    ensures a.reactError.Some? ==> a.framework.Some?
    ensures a.serverError <==> MentionsServerError(text)
    ensures a.authError <==> MentionsAuthError(text)
    ensures a.authError ==> a.hint == Some(AuthHint)
    ensures a.serverError && !a.authError ==> a.hint == Some(ServerHint)
    ensures !a.serverError && !a.authError ==>
              a.hint == (if a.reactError.Some? then Some(DetectReact(text).value.hint) else None)
    ensures !a.serverError && !a.authError ==>
              (a.hint.Some? <==> a.reactError.Some?) &&
              (a.hint.Some? ==> exists k :: 0 <= k < |ReactRules| && ReactRules[k].kind == a.reactError.value && ReactRules[k].hint == a.hint.value)
  {
    var rule := DetectType(text);
    assert rule.Some? <==> exists k :: 0 <= k < |TypeRules| && Fires(text, k) by {
      DetectTypeIsFirstRule(text);
    }
    var react := if Includes(text, "React") then DetectReact(text) else None;
    var hintAfterReact := if react.Some? then Some(react.value.hint) else None;
    var hintAfterServer := if MentionsServerError(text) then Some(ServerHint) else hintAfterReact;
    var hint := if MentionsAuthError(text) then Some(AuthHint) else hintAfterServer;
    Analysis(
      if rule.Some? then Some(rule.value.typeName) else None,
      if rule.Some? then Some(rule.value.category) else None,
      if Includes(text, "React") then Some("React") else None,
      if react.Some? then Some(react.value.kind) else None,
      hint,
      MentionsServerError(text),
      MentionsAuthError(text))
  }

  // ---------------------------------------------------------------- suggestions

  const CheckFailedHint: string := "Check the failed network requests - they may have caused this error"
  const CorsHint: string := "Request failed with no status - likely CORS issue. Check API Gateway CORS settings."
  const ServerLogsHint: string := "Server returned 5xx error - check Lambda logs in CloudWatch"
  const NullCheckHint: string := "Add null checks or optional chaining (?.) to handle missing data"
  const NetworkToolHint: string := "Use get_network tool to inspect the failing request details"
  const ReactTreeHint: string := "Use get_react_tree to inspect component state at time of error"
  const EvaluateHint: string := "Use evaluate_js to inspect application state"
  const ScreenshotHint: string := "Take a screenshot to see the current UI state"

  /** Every suggestion, in the order the rules are checked; the last two are the generic pair. */
  const AllSuggestions: seq<string> :=
    [CheckFailedHint, CorsHint, ServerLogsHint, NullCheckHint, NetworkToolHint, ReactTreeHint, EvaluateHint, ScreenshotHint]

  /** Some failed request shows no status (the `=== 0` half of the source's test is kept). */
  predicate NoStatusFailure(failed: seq<FailedRequest>) {
    exists i :: 0 <= i < |failed| && (failed[i].status == Code(0) || failed[i].status.FailedMark?)
  }

  /** Some failed request shows a numeric 5xx status. */
  predicate ServerFailure(failed: seq<FailedRequest>) {
    exists i :: 0 <= i < |failed| && failed[i].status.Code? && failed[i].status.code >= 500
  }

  /** Whether the rule behind each of the six specific suggestions fires, in `AllSuggestions` order. */
  function RulesFired(text: string, failed: seq<FailedRequest>): (f: seq<bool>)
    ensures |f| == 6
  {
    [ |failed| > 0,
      |failed| > 0 && NoStatusFailure(failed),
      |failed| > 0 && ServerFailure(failed),
      Includes(text, "undefined") || Includes(text, "null"),
      Includes(text, "fetch") || Includes(text, "network"),
      Includes(text, "React") ]
  }

  /** One suggestion rule: append `x` when its condition holds, otherwise leave the list alone. */
  function PushIf(s: seq<string>, cond: bool, x: string): seq<string> {
    if cond then s + [x] else s
  }

  /** The specific suggestions after the first `k` rules have been checked, in rule order. */
  function Pushes(fired: seq<bool>, k: nat): seq<string>
    requires k <= |fired| <= 6
  {
    if k == 0 then [] else PushIf(Pushes(fired, k - 1), fired[k - 1], AllSuggestions[k - 1])
  }

  /** The list for given rule outcomes: the specific suggestions in rule order, then the generic pair if none fired. */
  function SuggestionsFor(fired: seq<bool>): seq<string>
    requires |fired| == 6
  {
    var specific := Pushes(fired, 6);
    if |specific| == 0 then specific + [AllSuggestions[6], AllSuggestions[7]] else specific
  }

  /** `generateSuggestions(text, failed)`: the six rules in order, then the generic pair if nothing fired. */
  function GenerateSuggestions(text: string, failed: seq<FailedRequest>): seq<string> {
    SuggestionsFor(RulesFired(text, failed))
  }

  lemma SuggestionTextsDistinct()
    ensures Distinct(AllSuggestions)
  {
  }

  /** One push keeps the list distinct and ordered as in `AllSuggestions`, and adds the text only when `cond` holds. */
  lemma PushIfStep(s: seq<string>, k: nat, cond: bool)
    requires k < |AllSuggestions|
    requires Distinct(s) && IsSubseq(s, AllSuggestions[..k])
    requires forall y :: y in s ==> y in AllSuggestions[..k]
    ensures Distinct(PushIf(s, cond, AllSuggestions[k]))
    ensures IsSubseq(PushIf(s, cond, AllSuggestions[k]), AllSuggestions[..k + 1])
    ensures forall y :: y in PushIf(s, cond, AllSuggestions[k]) ==> y in AllSuggestions[..k + 1]
  {
    var x := AllSuggestions[k];
    SuggestionTextsDistinct();
    assert AllSuggestions[..k + 1] == AllSuggestions[..k] + [x];
    if cond {
      assert x !in AllSuggestions[..k];
      DistinctSnoc(s, x);
      SubseqSnoc(s, AllSuggestions[..k], x);
    } else {
      SubseqAppendRight(s, AllSuggestions[..k], [x]);
    }
  }

  /**
    After the first `k` rules the list holds no repeats, follows the rule order, and holds
    the text of rule `j` exactly when `j` is among the first `k` and fired.
   */
  lemma {:induction false} PushesSpec(fired: seq<bool>, k: nat)
    requires k <= |fired| == 6
    ensures Distinct(Pushes(fired, k)) && IsSubseq(Pushes(fired, k), AllSuggestions[..k])
    ensures forall y :: y in Pushes(fired, k) ==> y in AllSuggestions[..k]
    ensures forall j :: 0 <= j < |AllSuggestions| ==> (AllSuggestions[j] in Pushes(fired, k) <==> j < k && fired[j])
    decreases k
  {
    SuggestionTextsDistinct();
    if k > 0 {
      var s := Pushes(fired, k - 1);
      PushesSpec(fired, k - 1);
      PushIfStep(s, k - 1, fired[k - 1]);
      forall j | 0 <= j < |AllSuggestions|
        ensures AllSuggestions[j] in Pushes(fired, k) <==> j < k && fired[j]
      {
        assert AllSuggestions[j] == AllSuggestions[k - 1] <==> j == k - 1;
      }
    }
  }

  /**
    What the suggestion list promises, for any rule outcomes: never empty; each specific
    suggestion is present iff its rule fired; the generic pair is present iff no rule fired;
    the suggestions come in the fixed rule order and none repeats.
   */
  lemma SuggestionsForSpec(fired: seq<bool>)
    requires |fired| == 6
    ensures |SuggestionsFor(fired)| >= 1
    ensures forall k :: 0 <= k < 6 ==> (AllSuggestions[k] in SuggestionsFor(fired) <==> fired[k])
    ensures EvaluateHint in SuggestionsFor(fired) <==> forall k :: 0 <= k < 6 ==> !fired[k]
    ensures ScreenshotHint in SuggestionsFor(fired) <==> forall k :: 0 <= k < 6 ==> !fired[k]
    ensures IsSubseq(SuggestionsFor(fired), AllSuggestions)
    ensures Distinct(SuggestionsFor(fired))
  {
    var a := AllSuggestions;
    var specific := Pushes(fired, 6);
    var r := SuggestionsFor(fired);
    SuggestionTextsDistinct();
    PushesSpec(fired, 6);
    assert a[6] == EvaluateHint && a[7] == ScreenshotHint;
    if |specific| == 0 {
      assert r == a[6..];
      SuffixIsSubseq(a, 6);
      assert forall k :: 0 <= k < 6 ==> a[k] !in r;
    } else {
      assert r == specific;
      assert specific[0] in a[..6];
      assert a[..6] + a[6..] == a;
      SubseqAppendRight(specific, a[..6], a[6..]);
    }
  }

  /** `generateSuggestions` keeps every promise of `SuggestionsForSpec` for the rules its inputs fire. */
  lemma SuggestionsSpec(text: string, failed: seq<FailedRequest>)
    ensures |GenerateSuggestions(text, failed)| >= 1
    ensures forall k :: 0 <= k < 6 ==> (AllSuggestions[k] in GenerateSuggestions(text, failed) <==> RulesFired(text, failed)[k])
    ensures EvaluateHint in GenerateSuggestions(text, failed) <==> forall k :: 0 <= k < 6 ==> !RulesFired(text, failed)[k]
    ensures ScreenshotHint in GenerateSuggestions(text, failed) <==> forall k :: 0 <= k < 6 ==> !RulesFired(text, failed)[k]
    ensures IsSubseq(GenerateSuggestions(text, failed), AllSuggestions)
    ensures Distinct(GenerateSuggestions(text, failed))
  {
    SuggestionsForSpec(RulesFired(text, failed));
  }

  /** The views never show status 0, so only the "failed" mark triggers the no-status suggestion. */
  lemma NoStatusMeansFailedMark(network: seq<NetworkEntry>)
    ensures NoStatusFailure(FailedRequests(network)) <==>
              exists i :: 0 <= i < |FailedRequests(network)| && FailedRequests(network)[i].status.FailedMark?
  {
    var r := FailedRequests(network);
    FailedAreNewest(network);
    forall i | 0 <= i < |r|
      ensures r[i].status != Code(0)
    {
      assert r[i] == FailedOf(LastFailed(network)[i]);
    }
  }

  // ---------------------------------------------------------------- explainError

  datatype ErrorInfo = ErrorInfo(message: string, location: Option<Location>, timestamp: int)

  datatype ErrorContext = ErrorContext(
    page: PageInfo,
    recentNetworkRequests: seq<NearbyRequest>,
    failedNetworkRequests: seq<FailedRequest>)

  datatype Explanation = Explanation(error: ErrorInfo, analysis: Analysis, context: ErrorContext, suggestions: seq<string>)

  /**
    `explainError(params)` with the page's URL and title supplied: the not-found failure when
    no error is chosen, otherwise the chosen error with its classification, the requests
    around its time, the recent failed requests and a non-empty suggestion list built from
    its text and those failed requests.
   */
  function ExplainError(st: AppState.State, params: ExplainErrorParams, page: PageInfo): (r: ToolResult<Explanation>)
    ensures r.Failure? <==> ResolveAnchor(AppState.ConsoleLogs(st), params).None?
    ensures r.Failure? ==> r.error == NoErrorMessage
    ensures r.Success? ==>
              exists j :: 0 <= j < |AppState.ConsoleLogs(st)| &&
                AppState.ConsoleLogs(st)[j].level == "error" && AppState.ConsoleLogs(st)[j].text == r.data.error.message &&
                AppState.ConsoleLogs(st)[j].timestamp == r.data.error.timestamp
    ensures r.Success? ==> |r.data.suggestions| >= 1 && Distinct(r.data.suggestions)
    ensures r.Success? ==> |r.data.context.failedNetworkRequests| <= MaxFailedShown
    ensures r.Success? ==> r.data.context.page == page
    ensures r.Success? ==>
              var a := ResolveAnchor(AppState.ConsoleLogs(st), params).value;
              r.data.error == ErrorInfo(a.text, a.location, a.timestamp) &&
              r.data.context.failedNetworkRequests == FailedRequests(AppState.NetworkLogs(st))
    ensures r.Success? ==>
              r.data.analysis == AnalyzeError(r.data.error.message) &&
              r.data.suggestions == GenerateSuggestions(r.data.error.message, r.data.context.failedNetworkRequests) &&
              r.data.context.recentNetworkRequests == RecentNetwork(AppState.NetworkLogs(st), r.data.error.timestamp)
  {
    var logs := AppState.ConsoleLogs(st);
    var network := AppState.NetworkLogs(st);
    match ResolveAnchor(logs, params)
    case None => Failure(NoErrorMessage)
    case Some(e) =>
      AnchorIsError(logs, params);
      var j :| 0 <= j < |logs| && logs[j] == e;
      var failed := FailedRequests(network);
      SuggestionsSpec(e.text, failed);
      Success(Explanation(
        ErrorInfo(e.text, e.location, e.timestamp),
        AnalyzeError(e.text),
        ErrorContext(page, RecentNetwork(network, e.timestamp), failed),
        GenerateSuggestions(e.text, failed)))
  }

  // ---------------------------------------------------------------- getDebugSummary

  datatype ConsoleCounts = ConsoleCounts(total: nat, errors: nat, warnings: nat)
  datatype NetworkCounts = NetworkCounts(total: nat, failed: nat)
  datatype DebugSummary = DebugSummary(page: PageInfo, console: ConsoleCounts, network: NetworkCounts, recentErrors: seq<string>)

  /**
    `getDebugSummary()` with the page's URL and title supplied. The tool reads the state
    twice: the error, warning and failed counts before it awaits the page title (`before`),
    and the two totals and the recent errors after it (`after`); handlers and clears may
    commit in between. Over one snapshot (`before == after`) errors and warnings never
    exceed the console total, failed requests never exceed the network total, and there are
    as many recent errors as errors up to three. The recent errors are the texts of the
    last three (or fewer) errors of `after`, each cut to 100 characters.
   */
  function GetDebugSummary(before: AppState.State, after: AppState.State, page: PageInfo): (r: ToolResult<DebugSummary>)
    ensures r.Success? && r.data.page == page
    ensures r.data.console.total == |AppState.ConsoleLogs(after)|
    ensures r.data.console.errors == |ErrorsOf(AppState.ConsoleLogs(before))|
    ensures r.data.console.warnings == |Filter(AppState.ConsoleLogs(before), ConsoleTool.LevelIs("warn"))|
    ensures r.data.network.total == |AppState.NetworkLogs(after)|
    ensures r.data.network.failed == |Filter(AppState.NetworkLogs(before), IsFailedEntry())|
    ensures |r.data.recentErrors| == Min(MaxRecentErrors, |ErrorsOf(AppState.ConsoleLogs(after))|)
    ensures forall i :: 0 <= i < |r.data.recentErrors| ==>
              r.data.recentErrors[i] == Take(Last(ErrorsOf(AppState.ConsoleLogs(after)), MaxRecentErrors)[i].text, RecentErrorLength)
    ensures forall i :: 0 <= i < |r.data.recentErrors| ==> |r.data.recentErrors[i]| <= RecentErrorLength
    ensures before == after ==> r.data.console.errors + r.data.console.warnings <= r.data.console.total
    ensures before == after ==> r.data.network.failed <= r.data.network.total
    ensures before == after ==> |r.data.recentErrors| == Min(MaxRecentErrors, r.data.console.errors)
  {
    var logs := AppState.ConsoleLogs(before);
    var errors := ErrorsOf(logs);
    var warnings := Filter(logs, ConsoleTool.LevelIs("warn"));
    FilterDisjointCount(logs, ConsoleTool.LevelIs("error"), ConsoleTool.LevelIs("warn"));
    var failed := Filter(AppState.NetworkLogs(before), IsFailedEntry());
    var recent := SliceFrom(ErrorsOf(AppState.ConsoleLogs(after)), -(MaxRecentErrors as int));
    assert recent == Last(ErrorsOf(AppState.ConsoleLogs(after)), MaxRecentErrors);
    var texts := seq(|recent|, i requires 0 <= i < |recent| => Take(recent[i].text, RecentErrorLength));
    Success(DebugSummary(
      page,
      ConsoleCounts(|AppState.ConsoleLogs(after)|, |errors|, |warnings|),
      NetworkCounts(|AppState.NetworkLogs(after)|, |failed|),
      texts))
  }

  /**
    A console clear during the title await leaves the counts of the earlier snapshot
    against a total of zero, so the error count can exceed the console total.
   */
  lemma ClearDuringAwait(st: AppState.State, page: PageInfo)
    ensures var r := GetDebugSummary(st, AppState.ClearConsoleLogs(st), page).data;
            r.console.total == 0 && r.console.errors == |ErrorsOf(AppState.ConsoleLogs(st))| &&
            r.recentErrors == []
  {
    assert ErrorsOf(AppState.ConsoleLogs(AppState.ClearConsoleLogs(st))) == [];
  }

  /**
    An error logged during the title await is listed among the recent errors but not
    counted, so with no earlier error the summary reports zero errors and one recent error.
   */
  lemma {:induction false} ErrorDuringAwait(st: AppState.State, e: ConsoleEntry, page: PageInfo)
    requires e.level == "error"
    ensures var r := GetDebugSummary(st, AppState.AddConsoleLog(st, e), page).data;
            r.console.errors == |ErrorsOf(AppState.ConsoleLogs(st))| && |r.recentErrors| >= 1
  {
    var logs := AppState.ConsoleLogs(AppState.AddConsoleLog(st, e));
    assert logs[|logs| - 1] == e;
    FilterEmpty(logs, ConsoleTool.LevelIs("error"));
  }

  /** The error count is zero exactly when the console log holds no error-level entry. */
  lemma NoErrorsCounted(st: AppState.State, page: PageInfo)
    ensures GetDebugSummary(st, st, page).data.console.errors == 0 <==>
              forall j :: 0 <= j < |AppState.ConsoleLogs(st)| ==> AppState.ConsoleLogs(st)[j].level != "error"
  {
    FilterEmpty(AppState.ConsoleLogs(st), ConsoleTool.LevelIs("error"));
  }
  /** The console log of the worked case: an informational line, a null-access error and a warning. */
  const ScenarioLogs: seq<ConsoleEntry> := [
    ConsoleEntry("log", "ready", None, 1000),
    ConsoleEntry("error", "x is undefined", None, 2000),
    ConsoleEntry("warn", "slow", None, 3000)]

  /** In the worked case the latest error, the only one, is chosen. */
  lemma ScenarioAnchor()
    ensures ResolveAnchor(ScenarioLogs, ExplainErrorParams(None, None)) == Some(ScenarioLogs[1])
  {
    assert ErrorsOf(ScenarioLogs) == [ScenarioLogs[1]];
  }

  /** Every trigger of the error-type table starts with a capital, so a text without capitals fires no row. */
  lemma NoCapitalsNoType(t: string)
    requires forall i :: 0 <= i < |t| ==> !('A' <= t[i] <= 'Z')
    ensures DetectType(t).None?
  {
    assert !Includes(t, "TypeError") by { MissingCharExcludes(t, "TypeError", 0); }
    assert !Includes(t, "ReferenceError") by { MissingCharExcludes(t, "ReferenceError", 0); }
    assert !Includes(t, "SyntaxError") by { MissingCharExcludes(t, "SyntaxError", 0); }
    assert !Includes(t, "NetworkError") by { MissingCharExcludes(t, "NetworkError", 0); }
    assert !Includes(t, "Failed to fetch") by { MissingCharExcludes(t, "Failed to fetch", 0); }
    assert !Includes(t, "CORS") by { MissingCharExcludes(t, "CORS", 0); }
    assert !Includes(t, "ChunkLoadError") by { MissingCharExcludes(t, "ChunkLoadError", 0); }
  }

  /** The worked case's error text matches no row of the error-type table. */
  lemma ScenarioNoType(t: string)
    requires t == "x is undefined"
    ensures DetectType(t).None?
  {
    NoCapitalsNoType(t);
  }

  /** The worked case's error text names no server or credential status code. */
  lemma ScenarioNoStatusCodes(t: string)
    requires t == "x is undefined"
    ensures !MentionsServerError(t) && !MentionsAuthError(t)
  {
    MissingCharExcludes(t, "502", 0);
    MissingCharExcludes(t, "503", 0);
    MissingCharExcludes(t, "504", 0);
    MissingCharExcludes(t, "401", 0);
    MissingCharExcludes(t, "403", 0);
  }

  /** The worked case's error text mentions none of the recognised types, React, servers or credentials. */
  lemma ScenarioAnalysis(t: string)
    requires t == "x is undefined"
    ensures AnalyzeError(t) == Analysis(None, None, None, None, None, false, false)
  {
    ScenarioNoType(t);
    ScenarioNoStatusCodes(t);
    MissingCharExcludes(t, "React", 0);
  }

  /** With no failed requests, the worked case's error gets the null-check suggestion and nothing else. */
  lemma ScenarioSuggestions(t: string)
    requires t == "x is undefined"
    ensures GenerateSuggestions(t, []) == [NullCheckHint]
  {
    var fired := RulesFired(t, []);
    assert Includes(t, "undefined") by {
      assert OccursAt(t, "undefined", 5);
    }
    assert !Includes(t, "fetch") by { MissingCharExcludes(t, "fetch", 2); }
    assert !Includes(t, "network") by { MissingCharExcludes(t, "network", 2); }
    assert !Includes(t, "React") by { MissingCharExcludes(t, "React", 0); }
    assert fired == [false, false, false, true, false, false];
    OnlyNullCheckFired(fired);
  }

  /** When only the null-access rule fires, the null-check advice is the whole list. */
  lemma OnlyNullCheckFired(fired: seq<bool>)
    requires fired == [false, false, false, true, false, false]
    ensures SuggestionsFor(fired) == [NullCheckHint]
  {
    assert Pushes(fired, 1) == [] && Pushes(fired, 2) == [] && Pushes(fired, 3) == [];
    assert Pushes(fired, 4) == [AllSuggestions[3]];
    assert Pushes(fired, 5) == [AllSuggestions[3]];
    assert Pushes(fired, 6) == [NullCheckHint];
  }

  /** The worked case's summary counts three entries, one error and one warning. */
  lemma ScenarioSummary()
    ensures var st := AppState.State(None, None, None, CircularBuffer.Buffer(200, ScenarioLogs), CircularBuffer.Buffer(100, []));
            GetDebugSummary(st, st, PageInfo("", "")).data.console == ConsoleCounts(3, 1, 1)
  {
    assert ErrorsOf(ScenarioLogs) == [ScenarioLogs[1]];
    assert Filter(ScenarioLogs, ConsoleTool.LevelIs("warn")) == [ScenarioLogs[2]];
  }
}
