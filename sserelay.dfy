/**
 * The server half shared by the two completion routes: each part of the
 * upstream completion becomes one server-sent event `data: <json>` ended by
 * a blank line (the `text/event-stream` format of section 9.2 of the WHATWG
 * HTML Living Standard), enqueued on the response stream's controller in
 * arrival order; an iteration failure errors the stream; the controller is
 * closed in `finally`. The controller follows the WHATWG Streams Standard:
 * `enqueue` and `close` throw a TypeError unless the stream is still
 * readable, and `error` does nothing unless it is.
 */
module SseRelay {
  import opened Wrappers
  import opened JsText
  import opened StreamClient

  /** The headers both routes send with the stream. */
  const EventStreamHeaders: seq<(string, string)> :=
    [("Content-Type", "text/event-stream"), ("Cache-Control", "no-cache")]

  const ChatModel := "gpt-4.1-mini"
  const EventEnd := "\n\n"

  /** The chat completion request a route makes: model, user message, and streaming on. */
  datatype ChatRequest = ChatRequest(model: string, userContent: string, stream: bool)

  /** A JavaScript template literal's `${text}` for the `text` field of the request body. */
  function TemplateText(text: Option<string>): (r: string)
    ensures text.Some? ==> r == text.value
    ensures text.None? ==> r == "undefined"
  {
    match text
    case Some(t) => t
    case None => "undefined"
  }

  /** The upstream iteration: the parts that arrived, then the end of the stream or a failure. */
  datatype Completion<P> = Completion(parts: seq<P>, failure: Option<string>)

  /** One event: the field name "data: ", the JSON text, and the blank line that ends the event. */
  function Frame(json: string): (f: string)
    ensures |f| == |DataPrefix| + |json| + |EventEnd|
    ensures f[..|DataPrefix|] == DataPrefix
    ensures f[|DataPrefix|..|f| - |EventEnd|] == json
    ensures f[|f| - |EventEnd|..] == EventEnd
  {
    DataPrefix + json + EventEnd
  }

  /** Reads one event back: the text between "data: " and the final blank line. */
  function Unframe(f: string): (r: Option<string>)
    ensures r.Some? <==> |f| >= |DataPrefix| + |EventEnd| && StartsWith(f, DataPrefix) && f[|f| - |EventEnd|..] == EventEnd
  {
    if |f| >= |DataPrefix| + |EventEnd| && StartsWith(f, DataPrefix) && f[|f| - |EventEnd|..] == EventEnd
    then Some(f[|DataPrefix|..|f| - |EventEnd|])
    else None
  }

  /** Reading back an event gives its JSON text. */
  lemma UnframeFrame(json: string)
    ensures Unframe(Frame(json)) == Some(json)
  {
  }

  /** Every string `Unframe` accepts is the event of what it returns. */
  lemma FrameUnframe(f: string)
    requires Unframe(f).Some?
    ensures Frame(Unframe(f).value) == f
  {
    var n := |DataPrefix|;
    var m := |f| - |EventEnd|;
    assert f == f[..n] + f[n..m] + f[m..];
  }

  /** The events of a sequence of JSON texts, one per text, in order. */
  function Frames(jsons: seq<string>): (fs: seq<string>)
    ensures |fs| == |jsons| && forall i :: 0 <= i < |jsons| ==> fs[i] == Frame(jsons[i])
  {
    seq(|jsons|, i requires 0 <= i < |jsons| => Frame(jsons[i]))
  }

  /** `JSON.stringify` applied to every part. */
  function Stringified<P>(parts: seq<P>, stringify: P -> string): (jsons: seq<string>)
    ensures |jsons| == |parts| && forall i :: 0 <= i < |parts| ==> jsons[i] == stringify(parts[i])
  {
    seq(|parts|, i requires 0 <= i < |parts| => stringify(parts[i]))
  }

  /** The text of a sequence of chunks, one after the other. */
  function Concat(chunks: seq<string>): string
    decreases |chunks|
  {
    if chunks == [] then "" else chunks[0] + Concat(chunks[1..])
  }

  lemma {:induction false} ConcatAppend(a: seq<string>, b: seq<string>)
    ensures Concat(a + b) == Concat(a) + Concat(b)
    decreases |a|
  {
    if a == [] {
      assert a + b == b;
    } else {
      assert (a + b)[0] == a[0] && (a + b)[1..] == a[1..] + b;
      ConcatAppend(a[1..], b);
    }
  }

  datatype StreamState = Readable | Closed | Errored(reason: string)

  /**
   * The stream's default controller. `enqueued` is every chunk handed to the
   * stream, in order.
   */
  class Controller {
    var enqueued: seq<string>
    var state: StreamState

    constructor ()
      ensures enqueued == [] && state == Readable
    {
      enqueued := [];
      state := Readable;
    }

    /** `controller.enqueue(chunk)`: throws unless the stream is readable. */
    method Enqueue(chunk: string) returns (threw: bool)
      modifies this
      ensures threw <==> old(state) != Readable
      ensures enqueued == if threw then old(enqueued) else old(enqueued) + [chunk]
      ensures state == old(state)
    {
      threw := state != Readable;
      if !threw {
        enqueued := enqueued + [chunk];
      }
    }

    /** `controller.error(e)`: errors a readable stream and does nothing otherwise. */
    method Error(reason: string)
      modifies this
      ensures state == if old(state) == Readable then Errored(reason) else old(state)
      ensures enqueued == old(enqueued)
    {
      if state == Readable {
        state := Errored(reason);
      }
    }

    /** `controller.close()`: closes a readable stream and throws otherwise. */
    method Close() returns (threw: bool)
      modifies this
      ensures threw <==> old(state) != Readable
      ensures state == if threw then old(state) else Closed
      ensures enqueued == old(enqueued)
    {
      threw := state != Readable;
      if !threw {
        state := Closed;
      }
    }
  }

  /**
   * The stream's `start`: the `for await` loop enqueues one event per part;
   * the `catch` block errors the stream; the `finally` block closes it, and
   * that `close` throws exactly when the stream was errored first.
   */
  method Start<P>(c: Controller, completion: Completion<P>, stringify: P -> string) returns (closeThrew: bool)
    requires c.state == Readable && c.enqueued == []
    modifies c
    ensures c.enqueued == Frames(Stringified(completion.parts, stringify))
    ensures completion.failure.None? ==> c.state == Closed && !closeThrew
    ensures completion.failure.Some? ==> c.state == Errored(completion.failure.value) && closeThrew
  {
    var parts := completion.parts;
    var i := 0;
    while i < |parts|
      invariant 0 <= i <= |parts|
      invariant c.state == Readable
      invariant c.enqueued == Frames(Stringified(parts[..i], stringify))
    {
      var json := stringify(parts[i]);
      var threw := c.Enqueue(Frame(json));
      assert parts[..i + 1] == parts[..i] + [parts[i]];
      i := i + 1;
    }
    assert parts[..i] == parts;
    if completion.failure.Some? {
      c.Error(completion.failure.value);
    }
    closeThrew := c.Close();
  }
}
