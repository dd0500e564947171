/**
 * `POST /api/format-article`: asks for a streamed chat completion that
 * formats the posted write-up, and relays it as server-sent events.
 */
module FormatArticleRoute {
  import opened Wrappers
  import opened JsText
  import opened SseRelay

  const Instruction := "Format the following write-up into a well-structured article. DO NOT CHANGE ANY OF THE CONTENT:"

  /** The user message: the fixed instruction, a blank line, then the write-up unchanged. */
  function UserMessage(text: string): (m: string)
    ensures StartsWith(m, Instruction + "\n\n")
    ensures m[|Instruction| + 2..] == text
  {
    Instruction + "\n\n" + text
  }

  /** The write-up can be read back from the message, so different write-ups give different messages. */
  lemma UserMessageInjective(a: string, b: string)
    ensures UserMessage(a) == UserMessage(b) <==> a == b
  {
    if UserMessage(a) == UserMessage(b) {
      assert UserMessage(a)[|Instruction| + 2..] == UserMessage(b)[|Instruction| + 2..];
    }
  }

  /**
   * The handler, given the `text` field of the request body and the
   * completion the upstream service streams back: the request it makes, the
   * response headers, and the stream once `start` has run.
   */
  method Post<P>(text: Option<string>, completion: Completion<P>, stringify: P -> string)
    returns (request: ChatRequest, headers: seq<(string, string)>, stream: Controller, closeThrew: bool)
    ensures request == ChatRequest(ChatModel, UserMessage(TemplateText(text)), true)
    ensures headers == EventStreamHeaders
    ensures fresh(stream)
    ensures stream.enqueued == Frames(Stringified(completion.parts, stringify))
    ensures completion.failure.None? ==> stream.state == Closed && !closeThrew
    ensures completion.failure.Some? ==> stream.state == Errored(completion.failure.value) && closeThrew
  {
    request := ChatRequest(ChatModel, UserMessage(TemplateText(text)), true);
    stream := new Controller();
    closeThrew := Start(stream, completion, stringify);
    headers := EventStreamHeaders;
  }
}
