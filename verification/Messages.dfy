/** The records that the parser fills and the server streams. */
module Messages {
  datatype ToolCall = ToolCall(name: string, arguments: string, id: string)

  const EMPTY_CALL := ToolCall("", "", "")

  /** The fields of an assistant message that change while it is generated. */
  datatype Message = Message(content: string, reasoning: string, calls: seq<ToolCall>)

  const EMPTY_MESSAGE := Message("", "", [])
}
