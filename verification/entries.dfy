/**
  The records the capture core stores and returns: console entries, network entries,
  and the uniform `{success, data | error}` result every query returns.
 */
module Entries {
  import opened Options

  /** Header names to values, as the driver reports them. */
  type Headers = map<string, string>

  /** Where a console message came from; every part may be missing. */
  datatype Location = Location(url: Option<string>, lineNumber: Option<int>, columnNumber: Option<int>)

  /** One captured console message or page error. `timestamp` is milliseconds since the epoch. */
  datatype ConsoleEntry = ConsoleEntry(level: string, text: string, location: Option<Location>, timestamp: int)

  /**
    The driver's timing breakdown of a request. The source carries fractional milliseconds;
    nothing in the model computes with them, so whole numbers stand in.
   */
  datatype Timing = Timing(
    startTime: int,
    domainLookupStart: int,
    domainLookupEnd: int,
    connectStart: int,
    connectEnd: int,
    requestStart: int,
    responseStart: int,
    responseEnd: int)

  /** One captured network exchange, finished or failed (`httpMethod` is the source's `method`). */
  datatype NetworkEntry = NetworkEntry(
    id: string,
    httpMethod: string,
    url: string,
    status: Option<int>,
    contentType: Option<string>,
    timing: Option<Timing>,
    requestHeaders: Option<Headers>,
    responseHeaders: Option<Headers>,
    requestBody: Option<string>,
    responseBody: Option<string>,
    timestamp: int,
    failureReason: Option<string>)

  /** JavaScript truthiness of an optional status code: present and not zero. */
  predicate StatusTruthy(status: Option<int>) {
    status.Some? && status.value != 0
  }

  /** `!status || status >= 400`: no status, status 0, or an HTTP error code. */
  predicate IsFailedStatus(status: Option<int>) {
    !StatusTruthy(status) || status.value >= 400
  }

  /** `status && status >= 200 && status < 400`: a 2xx or 3xx code. */
  predicate IsSuccessStatus(status: Option<int>) {
    StatusTruthy(status) && 200 <= status.value < 400
  }

  /** A status as the views show it: `status || 'failed'`. */
  datatype StatusView = Code(code: int) | FailedMark

  function ShowStatus(status: Option<int>): (v: StatusView)
    ensures v.FailedMark? <==> status.None? || status.value == 0
    ensures v.Code? ==> status == Some(v.code) && v.code != 0
  {
    if StatusTruthy(status) then Code(status.value) else FailedMark
  }

  /** The uniform query result: success with data, or failure with a message. */
  datatype ToolResult<+T> = Success(data: T) | Failure(error: string)

  /** The payload of the two clearing queries. */
  datatype Cleared = Cleared(cleared: bool)

  /** Success and failure never overlap, and a status in neither class is a nonzero code below 200. */
  lemma StatusClasses(status: Option<int>)
    ensures !(IsSuccessStatus(status) && IsFailedStatus(status))
    ensures !IsSuccessStatus(status) && !IsFailedStatus(status) <==> status.Some? && status.value != 0 && status.value < 200
  {
  }
}
