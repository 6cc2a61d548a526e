/** The voice route: the request is normalised to a message list, the model
    is asked (a parameter here), and its content blocks are shaped into the
    reply the chart's voice component reads. */
module VoiceRoute {
  import opened Wrappers
  import opened Strings
  import opened VoiceTypes
  import opened VoiceHistory

  /** A content block of the model's answer. */
  datatype ContentBlock =
    | TextBlock(text: string)
    | ToolUseBlock(call: ToolCall)
    | OtherBlock

  /** The parsed request body. `messages` is `None` unless the body's
      `messages` is an array; `transcript` is `None` unless it is a string. */
  datatype RequestBody = RequestBody(messages: Option<seq<Message>>, transcript: Option<string>)

  /** The success reply. A clarification is `None` where a `clarify` call
      came without a `message` (JSON null in the reply). */
  datatype VoiceReply = VoiceReply(
    actions: seq<RecordInput>,
    toolCalls: seq<ToolCall>,
    clarifications: seq<Option<string>>)

  datatype HttpResponse = Success(reply: VoiceReply) | Failure(status: int, error: string)

  const MissingInput: string := "Missing messages or transcript"
  const InterpretFailed: string := "Failed to interpret voice input"

  /** The messages to send: a non-empty `messages` array as given, else a
      non-empty string `transcript` as one user message, else the 400
      error text. */
  function NormalizeRequest(body: RequestBody): (r: Result<seq<Message>, string>)
    ensures r.Err? <==> (body.messages.None? || |body.messages.value| == 0)
                        && (body.transcript.None? || body.transcript.value == "")
    ensures r.Err? ==> r.error == MissingInput
    ensures body.messages.Some? && |body.messages.value| > 0 ==> r == Ok(body.messages.value)
    ensures r.Ok? && (body.messages.None? || |body.messages.value| == 0) ==>
              r.value == [Message(User, body.transcript.value)]
    ensures r.Ok? ==> |r.value| > 0
  {
    if body.messages.Some? && |body.messages.value| > 0 then Ok(body.messages.value)
    else if body.transcript.Some? && body.transcript.value != "" then Ok([Message(User, body.transcript.value)])
    else Err(MissingInput)
  }

  /** Every tool_use block's call, in answer order. */
  function ToolUses(content: seq<ContentBlock>): (r: seq<ToolCall>)
    ensures |r| <= |content|
  {
    if |content| == 0 then []
    else ToolUses(content[..|content| - 1]) + (match content[|content| - 1] case ToolUseBlock(c) => [c] case _ => [])
  }

  /** The calls of the `record` tool, in order. */
  function RecordCalls(calls: seq<ToolCall>): (r: seq<ToolCall>)
    ensures |r| <= |calls|
    ensures forall i :: 0 <= i < |r| ==> r[i].name == "record" && r[i] in calls
  {
    if |calls| == 0 then []
    else RecordCalls(calls[..|calls| - 1]) + (if calls[|calls| - 1].name == "record" then [calls[|calls| - 1]] else [])
  }

  function Inputs(calls: seq<ToolCall>): (r: seq<RecordInput>)
    ensures |r| == |calls|
    ensures forall i :: 0 <= i < |calls| ==> r[i] == calls[i].input.record
  {
    if |calls| == 0 then [] else Inputs(calls[..|calls| - 1]) + [calls[|calls| - 1].input.record]
  }

  /** The `message` of every `clarify` call, in order. */
  function ClarifyMessages(calls: seq<ToolCall>): (r: seq<Option<string>>)
    ensures |r| <= |calls|
  {
    if |calls| == 0 then []
    else ClarifyMessages(calls[..|calls| - 1]) + (if calls[|calls| - 1].name == "clarify" then [calls[|calls| - 1].input.message] else [])
  }

  /** The text blocks that are not blank, in order. */
  function TextClarifications(content: seq<ContentBlock>): (r: seq<Option<string>>)
    ensures |r| <= |content|
    ensures forall i :: 0 <= i < |r| ==> r[i].Some? && !AllSpace(r[i].value)
  {
    if |content| == 0 then []
    else
      var last := content[|content| - 1];
      TrimOfAllSpace(if last.TextBlock? then last.text else "");
      TextClarifications(content[..|content| - 1])
      + (if last.TextBlock? && Trim(last.text) != "" then [Some(last.text)] else [])
  }

  /** The reply built from the model's content blocks. */
  function ShapeReply(content: seq<ContentBlock>): (r: VoiceReply)
    ensures |r.actions| <= |r.toolCalls| <= |content|
  {
    var calls := ToolUses(content);
    VoiceReply(Inputs(RecordCalls(calls)), calls, ClarifyMessages(calls) + TextClarifications(content))
  }

  lemma {:induction false} ToolUsesAppend(a: seq<ContentBlock>, b: seq<ContentBlock>)
    ensures ToolUses(a + b) == ToolUses(a) + ToolUses(b)
    ensures TextClarifications(a + b) == TextClarifications(a) + TextClarifications(b)
  {
    if |b| > 0 {
      assert (a + b)[..|a + b| - 1] == a + b[..|b| - 1];
      ToolUsesAppend(a, b[..|b| - 1]);
    } else {
      assert a + b == a;
    }
  }

  lemma {:induction false} CallsAppend(a: seq<ToolCall>, b: seq<ToolCall>)
    ensures RecordCalls(a + b) == RecordCalls(a) + RecordCalls(b)
    ensures ClarifyMessages(a + b) == ClarifyMessages(a) + ClarifyMessages(b)
    ensures Inputs(a + b) == Inputs(a) + Inputs(b)
  {
    if |b| > 0 {
      assert (a + b)[..|a + b| - 1] == a + b[..|b| - 1];
      CallsAppend(a, b[..|b| - 1]);
    } else {
      assert a + b == a;
    }
  }

  /** Shaping a longer answer extends each list in place, except that the
      clarify messages of both parts come before the texts of both parts. */
  lemma ShapeReplyAppend(a: seq<ContentBlock>, b: seq<ContentBlock>)
    ensures ShapeReply(a + b).toolCalls == ShapeReply(a).toolCalls + ShapeReply(b).toolCalls
    ensures ShapeReply(a + b).actions == ShapeReply(a).actions + ShapeReply(b).actions
    ensures ShapeReply(a + b).clarifications
         == ClarifyMessages(ToolUses(a)) + ClarifyMessages(ToolUses(b)) + TextClarifications(a) + TextClarifications(b)
  {
    ToolUsesAppend(a, b);
    CallsAppend(ToolUses(a), ToolUses(b));
    CallsAppend(RecordCalls(ToolUses(a)), RecordCalls(ToolUses(b)));
  }

  /** One text block becomes a clarification unless it is blank. */
  lemma ShapeText(t: string)
    ensures ShapeReply([TextBlock(t)]) == VoiceReply([], [], if AllSpace(t) then [] else [Some(t)])
  {
    assert [TextBlock(t)][..0] == [];
    TrimOfAllSpace(t);
  }

  /** One tool call is always listed; its input is an action when it is a
      `record` call, and its message a clarification when it is a `clarify`
      call. */
  lemma ShapeToolUse(c: ToolCall)
    ensures ShapeReply([ToolUseBlock(c)])
         == VoiceReply(if c.name == "record" then [c.input.record] else [],
                       [c],
                       if c.name == "clarify" then [c.input.message] else [])
  {
    assert [ToolUseBlock(c)][..0] == [];
    assert ToolUses([ToolUseBlock(c)]) == [c];
    assert [c][..0] == [];
  }

  /** Other blocks leave no trace in the reply. */
  lemma ShapeOther()
    ensures ShapeReply([OtherBlock]) == VoiceReply([], [], [])
  {
    assert [OtherBlock][..0] == [];
  }

  /** The route's whole contract. An unparsable body and a failed model call
      give 500; a body without input gives 400 before the model is asked;
      otherwise the model's answer for the normalised messages is shaped. */
  function HandleVoice(body: Option<RequestBody>, model: seq<Message> -> Result<seq<ContentBlock>, string>): (r: HttpResponse)
    ensures body.None? ==> r == Failure(500, InterpretFailed)
    ensures body.Some? && NormalizeRequest(body.value).Err? ==> r == Failure(400, MissingInput)
    ensures body.Some? && NormalizeRequest(body.value).Ok? ==>
              r == (match model(NormalizeRequest(body.value).value)
                    case Ok(content) => Success(ShapeReply(content))
                    case Err(_) => Failure(500, InterpretFailed))
    ensures r.Failure? ==> r.status in {400, 500}
  {
    if body.None? then Failure(500, InterpretFailed)
    else
      match NormalizeRequest(body.value)
      case Err(e) => Failure(400, e)
      case Ok(messages) =>
        match model(messages)
        case Ok(content) => Success(ShapeReply(content))
        case Err(_) => Failure(500, InterpretFailed)
  }

  /** The turn the chart's voice component appends after a reply. The route
      sends no `textResponse`, so the component's default, null, is used. */
  function TurnOfReply(transcript: string, reply: VoiceReply): (r: ConversationTurn)
    ensures r.transcript == transcript && r.toolCalls == reply.toolCalls && !Truthy(r.textResponse)
  {
    ConversationTurn(transcript, reply.toolCalls, None)
  }

  /** A reply that only asks back in plain text is logged in the next
      request's history as "Actions: (none)": the question itself is not
      carried into the session log. */
  lemma TextOnlyReplyLoggedAsNone(transcript: string, question: string, n: nat, stringify: ToolInput -> string)
    requires !AllSpace(question)
    ensures var reply := ShapeReply([TextBlock(question)]);
            && reply.clarifications == [Some(question)]
            && TurnLines(n, TurnOfReply(transcript, reply), stringify)[2] == "Actions: (none)"
  {
    ShapeText(question);
  }
}
