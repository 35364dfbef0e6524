/**
  The shared application state: the driver handles and the two bounded logs. It is the
  only place the logs change, by append, clear or reset.
 */
module AppState {
  import opened Options
  import opened Entries
  import opened JsArray
  import CircularBuffer

  /** Capacities used when the environment does not configure them. */
  const DefaultMaxConsoleEntries: int := 200
  const DefaultMaxNetworkEntries: int := 100

  /** An opaque reference to a driver object (browser, context or page). */
  datatype Handle = Handle(id: nat)

  datatype State = State(
    browser: Option<Handle>,
    context: Option<Handle>,
    page: Option<Handle>,
    consoleBuffer: CircularBuffer.Buffer<ConsoleEntry>,
    networkBuffer: CircularBuffer.Buffer<NetworkEntry>)

  /** Both logs keep their bound. */
  predicate Valid(s: State) {
    CircularBuffer.Valid(s.consoleBuffer) && CircularBuffer.Valid(s.networkBuffer)
  }

  predicate SameHandles(a: State, b: State) {
    a.browser == b.browser && a.context == b.context && a.page == b.page
  }

  /** A fresh state: no driver objects and two empty logs of the given capacities. */
  function Init(maxConsole: int, maxNetwork: int): (s: State)
    ensures s.browser.None? && s.context.None? && s.page.None?
    ensures |ConsoleLogs(s)| == 0 && |NetworkLogs(s)| == 0
    ensures s.consoleBuffer.maxSize == maxConsole && s.networkBuffer.maxSize == maxNetwork
    ensures 1 <= maxConsole && 1 <= maxNetwork ==> Valid(s)
  {
    State(None, None, None, CircularBuffer.New(maxConsole), CircularBuffer.New(maxNetwork))
  }

  /** The state the server starts with, using the default capacities. */
  function Default(): (s: State)
    ensures s.consoleBuffer.maxSize == DefaultMaxConsoleEntries && s.networkBuffer.maxSize == DefaultMaxNetworkEntries
    ensures |ConsoleLogs(s)| == 0 && |NetworkLogs(s)| == 0
    ensures Valid(s)
  {
    Init(DefaultMaxConsoleEntries, DefaultMaxNetworkEntries)
  }

  /** The `consoleLogs` snapshot. */
  function ConsoleLogs(s: State): seq<ConsoleEntry> {
    CircularBuffer.GetAll(s.consoleBuffer)
  }

  /** The `networkLogs` snapshot. */
  function NetworkLogs(s: State): seq<NetworkEntry> {
    CircularBuffer.GetAll(s.networkBuffer)
  }

  /** `addConsoleLog`: the entry becomes the newest console entry; nothing else changes. */
  function AddConsoleLog(s: State, e: ConsoleEntry): (r: State)
    ensures r.networkBuffer == s.networkBuffer && SameHandles(r, s)
    ensures r.consoleBuffer.maxSize == s.consoleBuffer.maxSize
    ensures 1 <= |ConsoleLogs(r)| <= |ConsoleLogs(s)| + 1
    ensures ConsoleLogs(r) == ConsoleLogs(s)[|ConsoleLogs(s)| + 1 - |ConsoleLogs(r)|..] + [e]
    ensures Valid(s) ==> ConsoleLogs(r) == Last(ConsoleLogs(s) + [e], s.consoleBuffer.maxSize)
    ensures Valid(s) ==> Valid(r)
  {
    CircularBuffer.PushKeepsSuffix(s.consoleBuffer, e);
    CircularBuffer.PushShape(s.consoleBuffer, e);
    s.(consoleBuffer := CircularBuffer.Push(s.consoleBuffer, e))
  }

  /** `addNetworkLog`: the entry becomes the newest network entry; nothing else changes. */
  function AddNetworkLog(s: State, e: NetworkEntry): (r: State)
    ensures r.consoleBuffer == s.consoleBuffer && SameHandles(r, s)
    ensures r.networkBuffer.maxSize == s.networkBuffer.maxSize
    ensures 1 <= |NetworkLogs(r)| <= |NetworkLogs(s)| + 1
    ensures NetworkLogs(r) == NetworkLogs(s)[|NetworkLogs(s)| + 1 - |NetworkLogs(r)|..] + [e]
    ensures Valid(s) ==> NetworkLogs(r) == Last(NetworkLogs(s) + [e], s.networkBuffer.maxSize)
    ensures Valid(s) ==> Valid(r)
  {
    CircularBuffer.PushKeepsSuffix(s.networkBuffer, e);
    CircularBuffer.PushShape(s.networkBuffer, e);
    s.(networkBuffer := CircularBuffer.Push(s.networkBuffer, e))
  }

  /**
    An append on any store, valid or not, drops exactly the oldest entry of a log that has
    reached its capacity and nothing from one below it.
   */
  lemma AddShape(s: State, c: ConsoleEntry, n: NetworkEntry)
    ensures ConsoleLogs(AddConsoleLog(s, c)) ==
              (if 1 <= |ConsoleLogs(s)| && s.consoleBuffer.maxSize <= |ConsoleLogs(s)| then ConsoleLogs(s)[1..] else ConsoleLogs(s)) + [c]
    ensures NetworkLogs(AddNetworkLog(s, n)) ==
              (if 1 <= |NetworkLogs(s)| && s.networkBuffer.maxSize <= |NetworkLogs(s)| then NetworkLogs(s)[1..] else NetworkLogs(s)) + [n]
  {
    CircularBuffer.PushShape(s.consoleBuffer, c);
    CircularBuffer.PushShape(s.networkBuffer, n);
  }

  /** `getRecentConsoleLogs(n)`: the newest `n` entries for a positive `n`, all of them for 0. */
  function GetRecentConsoleLogs(s: State, n: int): (r: seq<ConsoleEntry>)
    ensures n >= 1 ==> r == Last(ConsoleLogs(s), n)
    ensures n == 0 ==> r == ConsoleLogs(s)
  {
    CircularBuffer.GetLast(s.consoleBuffer, n)
  }

  /** `getRecentNetworkLogs(n)`: the newest `n` entries for a positive `n`, all of them for 0. */
  function GetRecentNetworkLogs(s: State, n: int): (r: seq<NetworkEntry>)
    ensures n >= 1 ==> r == Last(NetworkLogs(s), n)
    ensures n == 0 ==> r == NetworkLogs(s)
  {
    CircularBuffer.GetLast(s.networkBuffer, n)
  }

  /** `clearConsoleLogs`: the console log is empty, the network log and handles untouched. */
  function ClearConsoleLogs(s: State): (r: State)
    ensures |ConsoleLogs(r)| == 0 && r.consoleBuffer.maxSize == s.consoleBuffer.maxSize
    ensures r.networkBuffer == s.networkBuffer && SameHandles(r, s)
    ensures Valid(s) ==> Valid(r)
  {
    s.(consoleBuffer := CircularBuffer.Clear(s.consoleBuffer))
  }

  /** `clearNetworkLogs`: the network log is empty, the console log and handles untouched. */
  function ClearNetworkLogs(s: State): (r: State)
    ensures |NetworkLogs(r)| == 0 && r.networkBuffer.maxSize == s.networkBuffer.maxSize
    ensures r.consoleBuffer == s.consoleBuffer && SameHandles(r, s)
    ensures Valid(s) ==> Valid(r)
  {
    s.(networkBuffer := CircularBuffer.Clear(s.networkBuffer))
  }

  /** `reset`: no driver objects, both logs empty, capacities kept. */
  function Reset(s: State): (r: State)
    ensures r.browser.None? && r.context.None? && r.page.None?
    ensures |ConsoleLogs(r)| == 0 && |NetworkLogs(r)| == 0
    ensures r.consoleBuffer.maxSize == s.consoleBuffer.maxSize
    ensures r.networkBuffer.maxSize == s.networkBuffer.maxSize
    ensures Valid(s) ==> Valid(r)
  {
    State(None, None, None, CircularBuffer.Clear(s.consoleBuffer), CircularBuffer.Clear(s.networkBuffer))
  }

  /** Every way the state's logs can change. */
  datatype StoreOp =
    | AddConsole(consoleEntry: ConsoleEntry)
    | AddNetwork(networkEntry: NetworkEntry)
    | ClearConsole
    | ClearNetwork
    | ResetAll

  function Apply(s: State, op: StoreOp): State {
    match op
    case AddConsole(e) => AddConsoleLog(s, e)
    case AddNetwork(e) => AddNetworkLog(s, e)
    case ClearConsole => ClearConsoleLogs(s)
    case ClearNetwork => ClearNetworkLogs(s)
    case ResetAll => Reset(s)
  }

  function ApplyAll(s: State, ops: seq<StoreOp>): State
    decreases |ops|
  {
    if |ops| == 0 then s else ApplyAll(Apply(s, ops[0]), ops[1..])
  }

  /**
    Bounded growth: whatever sequence of appends, clears and resets is applied, the
    capacities stay and neither log exceeds its capacity.
   */
  lemma {:induction false} ApplyAllKeepsBounds(s: State, ops: seq<StoreOp>)
    requires Valid(s)
    ensures Valid(ApplyAll(s, ops))
    ensures ApplyAll(s, ops).consoleBuffer.maxSize == s.consoleBuffer.maxSize
    ensures ApplyAll(s, ops).networkBuffer.maxSize == s.networkBuffer.maxSize
    ensures |ConsoleLogs(ApplyAll(s, ops))| <= s.consoleBuffer.maxSize
    ensures |NetworkLogs(ApplyAll(s, ops))| <= s.networkBuffer.maxSize
    decreases |ops|
  {
    if |ops| > 0 {
      ApplyAllKeepsBounds(Apply(s, ops[0]), ops[1..]);
    }
  }

  /** Console-side operations leave the network log alone, and network-side ones the console log. */
  lemma OpsTouchOneLog(s: State, op: StoreOp)
    ensures op.AddConsole? || op.ClearConsole? ==> NetworkLogs(Apply(s, op)) == NetworkLogs(s)
    ensures op.AddNetwork? || op.ClearNetwork? ==> ConsoleLogs(Apply(s, op)) == ConsoleLogs(s)
    ensures !op.ResetAll? ==> SameHandles(Apply(s, op), s)
  {
  }

  /** One line of the `getConsoleLogs` projection (the timestamp stays a number; ISO formatting is not modelled). */
  datatype ConsoleLine = ConsoleLine(level: string, text: string, timestamp: int)

  /** `getConsoleLogs()`: one line per console entry, in log order, keeping level, text and time. */
  function GetConsoleLogs(s: State): (r: seq<ConsoleLine>)
    ensures |r| == |ConsoleLogs(s)|
    ensures forall i :: 0 <= i < |r| ==>
              r[i].level == ConsoleLogs(s)[i].level && r[i].text == ConsoleLogs(s)[i].text &&
              r[i].timestamp == ConsoleLogs(s)[i].timestamp
  {
    var logs := ConsoleLogs(s);
    seq(|logs|, i requires 0 <= i < |logs| => ConsoleLine(logs[i].level, logs[i].text, logs[i].timestamp))
  }
}
