/**
 * `POST /api/explain`: asks for a streamed chat completion that explains
 * the posted text in simple terms, and relays it as server-sent events.
 */
module ExplainRoute {
  import opened Wrappers
  import opened JsText
  import opened SseRelay

  const Instruction := "Please explain this in simple terms:"

  /** The user message: the fixed instruction, a blank line, then the text in double quotes. */
  function UserMessage(text: string): (m: string)
    ensures StartsWith(m, Instruction + "\n\n\"")
    ensures |m| == |Instruction| + |text| + 4 && m[|m| - 1] == '"'
    ensures m[|Instruction| + 3..|m| - 1] == text
  {
    Instruction + "\n\n\"" + text + "\""
  }

  /** The text can be read back from the message, so different texts give different messages. */
  lemma UserMessageInjective(a: string, b: string)
    ensures UserMessage(a) == UserMessage(b) <==> a == b
  {
    if UserMessage(a) == UserMessage(b) {
      var n := |Instruction| + 3;
      assert UserMessage(a)[n..|UserMessage(a)| - 1] == UserMessage(b)[n..|UserMessage(b)| - 1];
    }
  }

  /**
   * The handler, given the `text` field of the request body and the
   * completion the upstream service streams back: the request it makes, the
   * response headers, and the stream once `start` has run.
   */
  method Post<P>(text: Option<string>, completion: Completion<P>, stringify: P -> string)
    returns (request: ChatRequest, headers: seq<(string, string)>, stream: Controller, closeThrew: bool)
    ensures request == ChatRequest(ChatModel, UserMessage(TemplateText(text)), true)
    ensures headers == EventStreamHeaders
    ensures fresh(stream)
    ensures stream.enqueued == Frames(Stringified(completion.parts, stringify))
    ensures completion.failure.None? ==> stream.state == Closed && !closeThrew
    ensures completion.failure.Some? ==> stream.state == Errored(completion.failure.value) && closeThrew
  {
    request := ChatRequest(ChatModel, UserMessage(TemplateText(text)), true);
    stream := new Controller();
    closeThrew := Start(stream, completion, stringify);
    headers := EventStreamHeaders;
  }
}
