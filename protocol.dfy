/** Messages of the line protocol, as the dispatcher sees them after parsing. */
module Protocol {
  import opened Pow

  /** The header tags of `protocol.Message`. */
  datatype Header =
    | Quit
    | RequestChallenge
    | ResponseChallenge
    | RequestResource
    | ResponseResource

  /**
   * A message payload, viewed through JSON decoding: either text that
   * decodes into a stamp, or any other text (which fails to decode).
   */
  datatype Payload = Encoded(stamp: Stamp) | Plain(text: string)

  datatype Message = Message(header: Header, payload: Payload)
}
