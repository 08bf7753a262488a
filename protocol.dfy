/** The messages clients and the relay hub exchange over the socket, as the
    hub sees them after `JSON.parse`. */
module Protocol {
  import opened Document

  /** The `payload` of a `propertyChange` message: each field is what the
      hub's destructuring finds there, `None` where the key is absent. */
  datatype PropertyChangePayload = PropertyChangePayload(
    layerIndex: Option<int>,
    propertyName: string,
    newValue: Value,
    index: Option<int>,
    timestamp: Option<int>)

  /** A parsed message, told apart by its `type`. The hub reads no payload
      field of the other kinds; `payload` is `None` when the message has none. */
  datatype Message =
    | PropertyChange(payload: Option<PropertyChangePayload>)
    | LayerAdded
    | LayerDeleted
    | LayerReordered
    | UpdateScrubberPosition
    | OtherType(kind: string)

  /** What arrives on a connection: text that does not parse (or parses to
      something without a `type` to read), or a message. */
  datatype Inbound = Malformed | Parsed(message: Message)
}
