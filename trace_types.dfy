/** Record types shared by every component of the trace viewer. */
module TraceTypes {

  /** An optional value, for the record fields that may be absent and for
      the `null`/`undefined` states of the viewer. */
  datatype Option<+T> = None | Some(value: T)

  /** A half-open interval `[start, end)` on the video's playback timeline, in seconds. */
  datatype TimeRange = TimeRange(start: real, end: real)

  /** One step of a recorded agent execution. */
  datatype TraceItem = TraceItem(
    timestamp: string,
    screenshot: string,
    thought: string,
    action: string,
    video: string,
    timeRange: TimeRange,
    agent: Option<string>)

  /** One recorded task: an optional description and its ordered steps. */
  datatype TraceData = TraceData(task: Option<string>, items: seq<TraceItem>)
}
