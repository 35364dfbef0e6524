/** The console query: level and search filters, a last-N limit, and the display format. */
module ConsoleTool {
  import opened Options
  import opened Entries
  import opened JsString
  import opened JsArray
  import AppState

  /** Text longer than this is cut for display. */
  const MaxTextLength: nat := 1000

  /** Query parameters; an absent or empty filter and an absent or zero limit do nothing. */
  datatype GetConsoleParams = GetConsoleParams(level: Option<string>, last: Option<int>, search: Option<string>)

  /** One console entry as the query shows it (the timestamp stays a number). */
  datatype ConsoleView = ConsoleView(level: string, text: string, location: Option<string>, timestamp: int)

  datatype ConsoleReport = ConsoleReport(count: nat, total: nat, logs: seq<ConsoleView>)

  function LevelIs(level: string): ConsoleEntry -> bool {
    (e: ConsoleEntry) => e.level == level
  }

  /** Case-insensitive substring match of `needle` in the entry's text. */
  function TextContains(needle: string): ConsoleEntry -> bool {
    (e: ConsoleEntry) => Includes(ToLower(e.text), ToLower(needle))
  }

  /** Whether an entry passes both filters of `params` (a filter that is off passes everything). */
  function Matches(params: GetConsoleParams): ConsoleEntry -> bool {
    (e: ConsoleEntry) =>
      && (Truthy(params.level) ==> e.level == params.level.value)
      && (Truthy(params.search) ==> Includes(ToLower(e.text), ToLower(params.search.value)))
  }

  /** The selection `getConsole` makes, in the source's order: level filter, search filter, limit. */
  function SelectLogs(logs: seq<ConsoleEntry>, params: GetConsoleParams): seq<ConsoleEntry> {
    var byLevel := if Truthy(params.level) then Filter(logs, LevelIs(params.level.value)) else logs;
    var bySearch := if Truthy(params.search) then Filter(byLevel, TextContains(params.search.value)) else byLevel;
    LimitLast(bySearch, params.last)
  }

  /** The two successive filters are one filter by `Matches`, and the limit comes after both. */
  lemma SelectIsLimitedFilter(logs: seq<ConsoleEntry>, params: GetConsoleParams)
    ensures SelectLogs(logs, params) == LimitLast(Filter(logs, Matches(params)), params.last)
  {
    var m := Matches(params);
    if Truthy(params.level) && Truthy(params.search) {
      FilterCompose(logs, LevelIs(params.level.value), TextContains(params.search.value), m);
    } else if Truthy(params.level) {
      FilterExt(logs, LevelIs(params.level.value), m);
    } else if Truthy(params.search) {
      FilterExt(logs, TextContains(params.search.value), m);
    } else {
      FilterAll(logs, m);
    }
  }

  /**
    What the selection promises: a subsequence of the log in log order; every entry
    returned has the requested level and contains the search text ignoring case; without a
    limit every such entry is returned; with a positive limit exactly the newest `last` of them.
   */
  lemma SelectLogsSpec(logs: seq<ConsoleEntry>, params: GetConsoleParams)
    ensures IsSubseq(SelectLogs(logs, params), logs)
    ensures forall e :: e in SelectLogs(logs, params) ==>
              && e in logs
              && (Truthy(params.level) ==> e.level == params.level.value)
              && (Truthy(params.search) ==> Includes(ToLower(e.text), ToLower(params.search.value)))
    ensures params.last.None? || params.last.value == 0 ==>
              forall i :: 0 <= i < |logs| && Matches(params)(logs[i]) ==> logs[i] in SelectLogs(logs, params)
    ensures params.last.Some? && params.last.value >= 1 ==>
              SelectLogs(logs, params) == Last(Filter(logs, Matches(params)), params.last.value)
  {
    var f := Filter(logs, Matches(params));
    var r := SelectLogs(logs, params);
    SelectIsLimitedFilter(logs, params);
    assert r == LimitLast(f, params.last);
    LimitLastIsSubseq(f, params.last);
    SubseqTrans(r, f, logs);
  }

  /** `${url}:${lineNumber}:${columnNumber}`, where a missing number prints as "undefined". */
  function LocationString(loc: Location): string
    requires loc.url.Some?
  {
    loc.url.value + ":" + ShowNumber(loc.lineNumber) + ":" + ShowNumber(loc.columnNumber)
  }

  function ShowNumber(n: Option<int>): string {
    if n.Some? then IntToString(n.value) else "undefined"
  }

  /** The display form of one entry: text cut at 1000 characters plus "...", a location only when its URL is set. */
  function FormatEntry(e: ConsoleEntry): (v: ConsoleView)
    ensures v.level == e.level && v.timestamp == e.timestamp
    ensures |e.text| <= MaxTextLength ==> v.text == e.text
    ensures |e.text| > MaxTextLength ==> v.text == e.text[..MaxTextLength] + "..."
    ensures v.location.Some? <==> e.location.Some? && Truthy(e.location.value.url)
    ensures v.location.Some? ==> v.location.value == LocationString(e.location.value)
  {
    ConsoleView(
      e.level,
      Ellipsize(e.text, MaxTextLength),
      if e.location.Some? && Truthy(e.location.value.url) then Some(LocationString(e.location.value)) else None,
      e.timestamp)
  }

  /**
    `getConsole(params)`: always succeeds; `count` is the number of entries shown, never
    more than `total`, the size of the whole console log; entry `i` shown is the display
    form of entry `i` of the selection.
   */
  function GetConsole(st: AppState.State, params: GetConsoleParams): (r: ToolResult<ConsoleReport>)
    ensures r.Success?
    ensures r.data.total == |AppState.ConsoleLogs(st)|
    ensures r.data.count == |r.data.logs| <= r.data.total
    ensures |r.data.logs| == |SelectLogs(AppState.ConsoleLogs(st), params)|
    ensures forall i :: 0 <= i < |r.data.logs| ==>
              r.data.logs[i] == FormatEntry(SelectLogs(AppState.ConsoleLogs(st), params)[i])
  {
    var logs := AppState.ConsoleLogs(st);
    var selected := SelectLogs(logs, params);
    SelectIsLimitedFilter(logs, params);
    var formatted := seq(|selected|, i requires 0 <= i < |selected| => FormatEntry(selected[i]));
    Success(ConsoleReport(|formatted|, |logs|, formatted))
  }

  /** `clearConsole()`: empties the console log only, and reports success. */
  function ClearConsole(st: AppState.State): (r: (AppState.State, ToolResult<Cleared>))
    ensures r.1 == Success(Cleared(true))
    ensures |AppState.ConsoleLogs(r.0)| == 0
    ensures AppState.NetworkLogs(r.0) == AppState.NetworkLogs(st) && AppState.SameHandles(r.0, st)
    ensures AppState.Valid(st) ==> AppState.Valid(r.0)
  {
    (AppState.ClearConsoleLogs(st), Success(Cleared(true)))
  }
}
