/**
 * The explanation modal: its reset-on-open effect and `fetchExplanation`,
 * which reads the relayed completion as "\n\n"-separated events, keeps an
 * accumulator of the deltas and shows it after every accepted delta, and
 * falls back to a fixed apology when the request or a read fails.
 */
module ExplanationModal {
  import opened JsText
  import opened StreamClient

  const Apology := "Sorry, I had trouble explaining that. Please try again."

  /** The explanation shown once `fetchExplanation` has finished, starting from `previous`. */
  function ExplanationAfter(previous: string, res: FetchResult, parse: string -> Delta): (e: string)
    ensures res.NetworkError? || !res.ok ==> e == Apology
    ensures e != Apology && e != previous ==> res.HttpResponse? && res.ok && e == ReadStream(ModalEvents, res.body, parse).text
    ensures res.HttpResponse? && res.ok && ReadStream(ModalEvents, res.body, parse).failed ==> e == Apology
    ensures res.HttpResponse? && res.ok && !ReadStream(ModalEvents, res.body, parse).failed ==>
      e == (if |ReadStream(ModalEvents, res.body, parse).text| == 0 then previous else ReadStream(ModalEvents, res.body, parse).text)
  {
    match res
    case NetworkError => Apology
    case HttpResponse(ok, body) =>
      if !ok then Apology
      else
        var o := ReadStream(ModalEvents, body, parse);
        if o.failed then Apology else if |o.text| == 0 then previous else o.text
  }

  /**
   * The `forEach` callback on one event, short of its effects: the delta it
   * would append (empty when there is none) and whether it saw "[DONE]".
   */
  method ReadEvent(event: string, parse: string -> Delta) returns (delta: string, isDone: bool)
    ensures delta == Contribution(ModalEvents, event, parse)
    ensures isDone <==> EventOf(ModalEvents, event) == Done
  {
    delta, isDone := "", false;
    if StartsWith(event, DataPrefix) {
      var payload := Trim(event[|DataPrefix|..]);
      if payload == DoneSentinel {
        DoneEvent(ModalEvents, event, parse);
        isDone := true;
      } else {
        DataEvent(ModalEvents, event, payload, parse);
        match parse(payload) {
          case Content(text) => delta := text;
          case NoContent =>
          case Unparseable =>
        }
      }
    } else {
      SkippedEvent(ModalEvents, event, parse);
    }
  }

  class Modal {
    var explanation: string
    var isLoading: bool

    constructor ()
      ensures explanation == "" && !isLoading
    {
      explanation := "";
      isLoading := false;
    }

    /** The effect on `isOpen` and `selectedText`: clear, show loading, and start the fetch. */
    method OpenEffect(isOpen: bool, selectedText: string) returns (fetchStarted: bool)
      modifies this
      ensures fetchStarted <==> isOpen && selectedText != ""
      ensures fetchStarted ==> explanation == "" && isLoading
      ensures !fetchStarted ==> explanation == old(explanation) && isLoading == old(isLoading)
    {
      fetchStarted := isOpen && selectedText != "";
      if fetchStarted {
        explanation := "";
        isLoading := true;
      }
    }

    /**
     * The `forEach` over the "\n\n"-separated events of one chunk: every
     * event is visited; each non-empty delta is appended to the accumulator,
     * which is then shown. Returns whether a "[DONE]" event was seen.
     * `e0` is what was shown before the first delta of the whole response.
     */
    method ReadEvents(chunk: string, parse: string -> Delta, acc0: string, ghost e0: string)
      returns (acc: string, sawDone: bool)
      requires explanation == if |acc0| == 0 then e0 else acc0
      modifies this`explanation
      ensures sawDone == ChunkDone(ModalEvents, chunk)
      ensures acc == acc0 + ChunkText(ModalEvents, chunk, parse)
      ensures explanation == if |acc| == 0 then e0 else acc
    {
      var segs := Split(chunk, "\n\n");
      ghost var total := acc0 + SegmentsText(ModalEvents, segs[0..], parse);
      ghost var allDone := SegmentsDone(ModalEvents, segs[0..]);
      acc := acc0;
      sawDone := false;
      var j := 0;
      while j < |segs|
        invariant 0 <= j <= |segs|
        invariant explanation == if |acc| == 0 then e0 else acc
        invariant total == acc + SegmentsText(ModalEvents, segs[j..], parse)
        invariant allDone == (sawDone || SegmentsDone(ModalEvents, segs[j..]))
      {
        var delta, isDone := ReadEvent(segs[j], parse);
        SegmentTextStep(ModalEvents, segs, j, parse, total, acc, delta);
        SegmentDoneStep(ModalEvents, segs, j, allDone, sawDone, isDone);
        if isDone {
          sawDone := true;
        }
        if |delta| != 0 {
          acc := acc + delta;
          explanation := acc;
        } else {
          AppendEmpty(acc, delta);
        }
        j := j + 1;
      }
      assert segs[j..] == [];
      SegmentsFromStart(ModalEvents, segs, parse);
    }

    /**
     * The `while (!done)` loop of `fetchExplanation` over the reads of the
     * body. Returns whether a read threw; otherwise the accumulated text has
     * been shown, or `e0` is still shown when no delta arrived.
     */
    method ReadBody(body: seq<Read>, parse: string -> Delta, ghost e0: string) returns (failed: bool)
      requires explanation == e0
      modifies this`explanation
      ensures failed == ReadStream(ModalEvents, body, parse).failed
      ensures !failed ==>
        var text := ReadStream(ModalEvents, body, parse).text;
        explanation == if |text| == 0 then e0 else text
    {
      ghost var full := ReadStream(ModalEvents, body, parse);
      failed := false;
      var done := false;
      var acc := "";
      var i := 0;
      assert body[0..] == body;
      while !done
        invariant 0 <= i <= |body| + 1
        invariant !done ==> i <= |body| && !failed
        invariant explanation == if |acc| == 0 then e0 else acc
        invariant !done ==> full.text == acc + ReadStream(ModalEvents, body[i..], parse).text
        invariant !done ==> full.failed == ReadStream(ModalEvents, body[i..], parse).failed
        invariant done ==> failed == full.failed
        invariant done && !failed ==> full.text == acc
        decreases |body| + 1 - i, !done
      {
        ghost var rest := ReadStream(ModalEvents, body[i..], parse);
        ghost var at := i;
        var chunk := "";
        var doneReading := true;
        if i < |body| {
          if body[i].ReadError? {
            ReadStepFails(ModalEvents, body, i, parse);
            failed := true;
            done := true;
            continue;
          }
          chunk, doneReading := body[i].text, false;
        } else {
          EmptyChunkAddsNothing(ModalEvents, parse);
        }
        ghost var acc1 := acc;
        i := i + 1;
        done := doneReading;
        var sawDone;
        acc, sawDone := ReadEvents(chunk, parse, acc, e0);
        if sawDone {
          done := true;
        }
        if !doneReading {
          if sawDone {
            ReadStepDone(ModalEvents, body, at, parse);
          } else {
            ReadStepMore(ModalEvents, body, at, parse, full.text, acc1);
          }
        } else if done {
          assert |rest.text| == 0 && !rest.failed;
          assert acc == acc1;
        }
      }
    }

    /**
     * `fetchExplanation`: the `try` block reads the body, the `catch` block
     * shows the apology and the `finally` block clears the loading flag.
     */
    method FetchExplanation(res: FetchResult, parse: string -> Delta)
      modifies this
      ensures explanation == ExplanationAfter(old(explanation), res, parse)
      ensures !isLoading
    {
      var failed := true;
      if res.HttpResponse? && res.ok {
        failed := ReadBody(res.body, parse, explanation);
      }
      if failed {
        explanation := Apology;
      }
      isLoading := false;
    }
  }
}
