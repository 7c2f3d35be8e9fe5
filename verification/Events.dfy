/** The durable event, with the payload fields the transcript export reads. */
module Events {
  import opened Timestamps

  datatype EventType = PromptSubmitted | StreamUpdate | ToolStarted | OtherType(name: string)

  datatype Event = Event(
    id: int,
    eventType: EventType,
    sessionId: string,
    timestamp: Stamp,
    content: string,
    thought: bool,
    tool: string,
    toolKind: string)

  /** Rows in the order of their ids, all different. */
  ghost predicate Ordered(rows: seq<Event>) {
    forall i, j :: 0 <= i < j < |rows| ==> rows[i].id < rows[j].id
  }
}
