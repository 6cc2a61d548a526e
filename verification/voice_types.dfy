/** The shapes exchanged between the chart's voice component and the voice
    route: the `record` tool's input, a tool call, a chat message and a
    conversation turn. */
module VoiceTypes {
  import opened Wrappers

  /** The input of one `record` tool call, as the mapper reads it. `tooth`
      is the number the model sent. An absent key is `None`. A numeric field
      may also be present and JSON null, which is `Some(None)`. */
  datatype RecordInput = RecordInput(
    tooth: int,
    site: Option<string>,
    pocketDepth: Option<Option<int>>,
    gingivalMargin: Option<Option<int>>,
    bleeding: Option<bool>,
    plaque: Option<bool>,
    furcation: Option<bool>,
    missing: Option<bool>,
    comment: Option<string>)

  /** A tool call's input object, seen through the two tools: as a
      `record` input and as a `clarify` input's `message`. */
  datatype ToolInput = ToolInput(record: RecordInput, message: Option<string>)

  datatype ToolCall = ToolCall(id: string, name: string, input: ToolInput)

  datatype Role = User | Assistant

  datatype Message = Message(role: Role, content: string)

  /** One committed utterance and what the model answered. */
  datatype ConversationTurn = ConversationTurn(
    transcript: string,
    toolCalls: seq<ToolCall>,
    textResponse: Option<string>)
}
