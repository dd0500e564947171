/**
 * How the browser side reads a completion relayed as server-sent events.
 * Two readers exist: the article page cuts each chunk into lines on "\n" and
 * strips "data: " with a first-occurrence `replace`; the explanation modal
 * cuts each chunk on the blank line "\n\n" and strips "data: " with the
 * anchored pattern `^data: `. Both trim the payload, stop on "[DONE]" after
 * finishing the current chunk, and append the non-empty `delta.content` of
 * every payload that parses. JSON parsing is the abstract `parse`.
 */
module StreamClient {
  import opened JsText

  datatype Dialect = PageLines | ModalEvents

  function Separator(d: Dialect): (sep: string)
    ensures |sep| > 0 && forall k :: 0 <= k < |sep| ==> sep[k] == '\n'
  {
    match d
    case PageLines => "\n"
    case ModalEvents => "\n\n"
  }

  const DataPrefix := "data: "
  const DoneSentinel := "[DONE]"

  /** What `JSON.parse(payload).choices[0].delta.content` gives: a throw, a falsy value, or text. */
  datatype Delta = Unparseable | NoContent | Content(text: string)

  /** The text a payload adds: its `delta.content` when that is text, or nothing. */
  function DeltaText(parse: string -> Delta, payload: string): (t: string)
    ensures parse(payload).Content? ==> t == parse(payload).text
    ensures !parse(payload).Content? ==> t == ""
  {
    match parse(payload)
    case Content(t) => t
    case _ => ""
  }

  /** How one line (page) or one event (modal) is read. */
  datatype Event = Skip | Done | Data(payload: string)

  /** The payload with its "data: " field name removed, as each reader writes it. */
  function StripDataPrefix(d: Dialect, line: string): string
    requires StartsWith(line, DataPrefix)
  {
    match d
    case PageLines => ReplaceFirst(line, DataPrefix, "")
    case ModalEvents => line[|DataPrefix|..]
  }

  /** Both readers remove exactly the leading "data: " and keep the rest of the line. */
  lemma StripDataPrefixKeepsRest(d: Dialect, line: string)
    requires StartsWith(line, DataPrefix)
    ensures line == DataPrefix + StripDataPrefix(d, line)
  {
    assert line == line[..|DataPrefix|] + line[|DataPrefix|..];
    if d == PageLines {
      ReplaceFirstAtStart(line, DataPrefix, "");
      assert "" + line[|DataPrefix|..] == line[|DataPrefix|..];
    }
  }

  /**
   * A line is skipped exactly when it does not start with "data: "; otherwise
   * its trimmed payload is "[DONE]" or the payload of a data event.
   */
  function EventOf(d: Dialect, line: string): (e: Event)
    ensures e == Skip <==> !StartsWith(line, DataPrefix)
    ensures e != Skip ==> (e == Done <==> Trim(StripDataPrefix(d, line)) == DoneSentinel)
    ensures e.Data? ==> e.payload == Trim(StripDataPrefix(d, line)) && e.payload != DoneSentinel
  {
    if !StartsWith(line, DataPrefix) then Skip
    else
      var payload := Trim(StripDataPrefix(d, line));
      if payload == DoneSentinel then Done else Data(payload)
  }

  /** A line that does not start with "data: " is skipped. */
  lemma SkippedEvent(d: Dialect, line: string, parse: string -> Delta)
    requires !StartsWith(line, DataPrefix)
    ensures EventOf(d, line) == Skip && Contribution(d, line, parse) == ""
  {
  }

  /** A line whose trimmed payload is "[DONE]" ends the stream and adds nothing. */
  lemma DoneEvent(d: Dialect, line: string, parse: string -> Delta)
    requires StartsWith(line, DataPrefix) && Trim(StripDataPrefix(d, line)) == DoneSentinel
    ensures EventOf(d, line) == Done && Contribution(d, line, parse) == ""
  {
  }

  /** A line whose trimmed payload is not "[DONE]" is a data event with that payload. */
  lemma DataEvent(d: Dialect, line: string, payload: string, parse: string -> Delta)
    requires StartsWith(line, DataPrefix) && Trim(StripDataPrefix(d, line)) == payload
    requires payload != DoneSentinel
    ensures EventOf(d, line) == Data(payload)
    ensures Contribution(d, line, parse) == DeltaText(parse, payload)
  {
  }

  /**
   * One step of a loop over the segments of a chunk: the text still to come
   * loses the contribution `part` of the segment at hand.
   */
  lemma SegmentTextStep(d: Dialect, segs: seq<string>, j: nat, parse: string -> Delta,
                        total: string, acc: string, part: string)
    requires j < |segs|
    requires total == acc + SegmentsText(d, segs[j..], parse)
    requires part == Contribution(d, segs[j], parse)
    ensures total == (acc + part) + SegmentsText(d, segs[j + 1..], parse)
  {
    var tail := segs[j..];
    assert tail[0] == segs[j] && tail[1..] == segs[j + 1..];
    SegmentsUnfold(d, tail, parse);
    AppendAssoc(acc, part, SegmentsText(d, segs[j + 1..], parse));
  }

  /** One step of a loop over the segments of a chunk: "[DONE]" is seen in the segment at hand, as `isDone` says, or later. */
  lemma SegmentDoneStep(d: Dialect, segs: seq<string>, j: nat, allDone: bool, sawDone: bool, isDone: bool)
    requires j < |segs|
    requires allDone == (sawDone || SegmentsDone(d, segs[j..]))
    requires isDone <==> EventOf(d, segs[j]) == Done
    ensures allDone == ((sawDone || isDone) || SegmentsDone(d, segs[j + 1..]))
  {
    assert segs[j..][0] == segs[j] && segs[j..][1..] == segs[j + 1..];
  }

  /** The loop over a non-empty list of segments, unfolded once. */
  lemma SegmentsUnfold(d: Dialect, segs: seq<string>, parse: string -> Delta)
    requires |segs| > 0
    ensures SegmentsText(d, segs, parse) == Contribution(d, segs[0], parse) + SegmentsText(d, segs[1..], parse)
    ensures SegmentsDone(d, segs) <==> EventOf(d, segs[0]) == Done || SegmentsDone(d, segs[1..])
  {
  }

  /** A loop over segments that starts at the first one covers them all. */
  lemma SegmentsFromStart(d: Dialect, segs: seq<string>, parse: string -> Delta)
    ensures SegmentsText(d, segs[0..], parse) == SegmentsText(d, segs, parse)
    ensures SegmentsDone(d, segs[0..]) == SegmentsDone(d, segs)
  {
    assert segs[0..] == segs;
  }

  /** The two ways of removing "data: " agree, so both readers classify a line alike. */
  lemma ReadersClassifyAlike(line: string)
    ensures EventOf(PageLines, line) == EventOf(ModalEvents, line)
  {
    if StartsWith(line, DataPrefix) {
      ReplaceFirstAtStart(line, DataPrefix, "");
      assert "" + line[|DataPrefix|..] == line[|DataPrefix|..];
    }
  }

  /** The text a line adds: the delta of a data line whose payload parses to non-empty content. */
  function Contribution(d: Dialect, line: string, parse: string -> Delta): (t: string)
    ensures |t| > 0 ==> EventOf(d, line).Data? && parse(EventOf(d, line).payload) == Content(t)
    ensures EventOf(d, line).Data? && parse(EventOf(d, line).payload).Content? ==> t == parse(EventOf(d, line).payload).text
  {
    match EventOf(d, line)
    case Data(p) => DeltaText(parse, p)
    case _ => ""
  }

  function SegmentsText(d: Dialect, segs: seq<string>, parse: string -> Delta): string
    decreases |segs|
  {
    if segs == [] then "" else Contribution(d, segs[0], parse) + SegmentsText(d, segs[1..], parse)
  }

  predicate SegmentsDone(d: Dialect, segs: seq<string>)
    decreases |segs|
  {
    segs != [] && (EventOf(d, segs[0]) == Done || SegmentsDone(d, segs[1..]))
  }

  /** The text one chunk adds: every segment is visited, even after a "[DONE]". */
  function ChunkText(d: Dialect, chunk: string, parse: string -> Delta): string {
    SegmentsText(d, Split(chunk, Separator(d)), parse)
  }

  /** Whether some segment of the chunk is "[DONE]". */
  predicate ChunkDone(d: Dialect, chunk: string) {
    SegmentsDone(d, Split(chunk, Separator(d)))
  }

  /** One `reader.read()`: a decoded chunk, or a failure that throws. */
  datatype Read = Chunk(text: string) | ReadError

  /** The text gathered by the read loop, and whether a read threw. */
  datatype Outcome = Outcome(text: string, failed: bool)

  /** The fetch: rejected, or a response with its `ok` flag and the reads of its body. */
  datatype FetchResult = NetworkError | HttpResponse(ok: bool, body: seq<Read>)

  /**
   * The `while (!done)` read loop. After the last chunk the reader reports
   * done with no value, which decodes to the empty chunk.
   */
  function ReadStream(d: Dialect, body: seq<Read>, parse: string -> Delta): Outcome
    decreases |body|
  {
    if body == [] then Outcome(ChunkText(d, "", parse), false)
    else match body[0]
      case ReadError => Outcome("", true)
      case Chunk(s) =>
        var t := ChunkText(d, s, parse);
        if ChunkDone(d, s) then Outcome(t, false)
        else
          var rest := ReadStream(d, body[1..], parse);
          Outcome(t + rest.text, rest.failed)
  }

  /** No read before position `i` ends the loop: each is a chunk without "[DONE]". */
  predicate ReadOnUpTo(d: Dialect, body: seq<Read>, i: nat)
    requires i <= |body|
  {
    forall j :: 0 <= j < i ==> body[j].Chunk? && !ChunkDone(d, body[j].text)
  }

  /** The loop fails exactly when a read fails before any chunk holding "[DONE]". */
  lemma {:induction false} ReadFailsIff(d: Dialect, body: seq<Read>, parse: string -> Delta)
    ensures ReadStream(d, body, parse).failed <==> exists i :: 0 <= i < |body| && body[i].ReadError? && ReadOnUpTo(d, body, i)
    decreases |body|
  {
    if body != [] && body[0].Chunk? && !ChunkDone(d, body[0].text) {
      var rest := body[1..];
      ReadFailsIff(d, rest, parse);
      if ReadStream(d, rest, parse).failed {
        var i :| 0 <= i < |rest| && rest[i].ReadError? && ReadOnUpTo(d, rest, i);
        ReadOnShift(d, body, i);
        assert body[i + 1] == rest[i];
      }
      if exists i :: 0 <= i < |body| && body[i].ReadError? && ReadOnUpTo(d, body, i) {
        var i :| 0 <= i < |body| && body[i].ReadError? && ReadOnUpTo(d, body, i);
        ReadOnShift(d, body, i - 1);
        assert rest[i - 1] == body[i];
      }
    } else if body != [] && body[0].ReadError? {
      assert ReadOnUpTo(d, body, 0);
    } else if body != [] {
      forall i | 0 < i < |body| ensures !ReadOnUpTo(d, body, i) {
        assert !(body[0].Chunk? && !ChunkDone(d, body[0].text));
      }
    }
  }

  /** After a first read that does not end the loop, the reads before `i + 1` go on exactly when those of the rest before `i` do. */
  lemma ReadOnShift(d: Dialect, body: seq<Read>, i: nat)
    requires i < |body| && body[0].Chunk? && !ChunkDone(d, body[0].text)
    ensures ReadOnUpTo(d, body, i + 1) <==> ReadOnUpTo(d, body[1..], i)
  {
    var rest := body[1..];
    if ReadOnUpTo(d, rest, i) {
      forall j | 0 <= j < i + 1 ensures body[j].Chunk? && !ChunkDone(d, body[j].text) {
        if j > 0 {
          assert body[j] == rest[j - 1];
        }
      }
    }
    if ReadOnUpTo(d, body, i + 1) {
      forall j | 0 <= j < i ensures rest[j].Chunk? && !ChunkDone(d, rest[j].text) {
        assert rest[j] == body[j + 1];
      }
    }
  }

  lemma {:induction false} SegmentsTextAppend(d: Dialect, a: seq<string>, b: seq<string>, parse: string -> Delta)
    ensures SegmentsText(d, a + b, parse) == SegmentsText(d, a, parse) + SegmentsText(d, b, parse)
    decreases |a|
  {
    if a != [] {
      assert (a + b)[0] == a[0] && (a + b)[1..] == a[1..] + b;
      SegmentsTextAppend(d, a[1..], b, parse);
    } else {
      assert a + b == b;
    }
  }

  lemma {:induction false} SegmentsDoneAppend(d: Dialect, a: seq<string>, b: seq<string>)
    ensures SegmentsDone(d, a + b) <==> SegmentsDone(d, a) || SegmentsDone(d, b)
    decreases |a|
  {
    if a != [] {
      assert (a + b)[0] == a[0] && (a + b)[1..] == a[1..] + b;
      SegmentsDoneAppend(d, a[1..], b);
    } else {
      assert a + b == b;
    }
  }

  /** The loop over segments, unfolded at its first segment. */
  lemma SegmentsCons(d: Dialect, seg: string, rest: seq<string>, parse: string -> Delta)
    ensures SegmentsText(d, [seg] + rest, parse) == Contribution(d, seg, parse) + SegmentsText(d, rest, parse)
    ensures SegmentsDone(d, [seg] + rest) <==> EventOf(d, seg) == Done || SegmentsDone(d, rest)
  {
    assert ([seg] + rest)[0] == seg && ([seg] + rest)[1..] == rest;
  }

  lemma SingleSegment(d: Dialect, seg: string, parse: string -> Delta)
    ensures SegmentsText(d, [seg], parse) == Contribution(d, seg, parse)
    ensures SegmentsDone(d, [seg]) <==> EventOf(d, seg) == Done
  {
    assert [seg][0] == seg && [seg][1..] == [];
  }

  /** Leaving out a segment that adds no text and is not "[DONE]" changes nothing. */
  lemma SpliceInert(d: Dialect, a: seq<string>, seg: string, b: seq<string>, parse: string -> Delta)
    requires Contribution(d, seg, parse) == "" && EventOf(d, seg) != Done
    ensures SegmentsText(d, a + [seg] + b, parse) == SegmentsText(d, a + b, parse)
    ensures SegmentsDone(d, a + [seg] + b) <==> SegmentsDone(d, a + b)
  {
    var x := a + [seg];
    SingleSegment(d, seg, parse);
    SegmentsTextAppend(d, x, b, parse);
    SegmentsTextAppend(d, a, [seg], parse);
    SegmentsTextAppend(d, a, b, parse);
    var ta, tb := SegmentsText(d, a, parse), SegmentsText(d, b, parse);
    assert SegmentsText(d, x, parse) == ta + "";
    assert ta + "" == ta;
    SegmentsDoneAppend(d, x, b);
    SegmentsDoneAppend(d, a, [seg]);
    SegmentsDoneAppend(d, a, b);
  }

  /** A segment other than a "data: " one adds nothing and does not stop the loop. */
  lemma NonDataSegmentIgnored(d: Dialect, a: seq<string>, seg: string, b: seq<string>, parse: string -> Delta)
    requires !StartsWith(seg, DataPrefix)
    ensures SegmentsText(d, a + [seg] + b, parse) == SegmentsText(d, a + b, parse)
    ensures SegmentsDone(d, a + [seg] + b) <==> SegmentsDone(d, a + b)
  {
    SpliceInert(d, a, seg, b, parse);
  }

  /**
   * A payload that does not parse adds nothing, and the segments after it are
   * still read: the chunk reads as if that segment were absent.
   */
  lemma UnparseableSegmentSkipped(d: Dialect, a: seq<string>, seg: string, b: seq<string>, parse: string -> Delta)
    requires EventOf(d, seg).Data? && parse(EventOf(d, seg).payload) == Unparseable
    ensures SegmentsText(d, a + [seg] + b, parse) == SegmentsText(d, a + b, parse)
    ensures SegmentsDone(d, a + [seg] + b) <==> SegmentsDone(d, a + b)
  {
    SpliceInert(d, a, seg, b, parse);
  }

  /** Two bodies that start with the same read, and agree after it whenever reading goes on, read alike. */
  lemma SameHeadSameStream(d: Dialect, r1: seq<Read>, r2: seq<Read>, parse: string -> Delta)
    requires |r1| > 0 && |r2| > 0 && r1[0] == r2[0]
    requires r1[0].Chunk? && !ChunkDone(d, r1[0].text) ==> ReadStream(d, r1[1..], parse) == ReadStream(d, r2[1..], parse)
    ensures ReadStream(d, r1, parse) == ReadStream(d, r2, parse)
  {
  }

  /** Once a chunk holding "[DONE]" has been read, no later read changes the outcome. */
  lemma {:induction false} DoneStopsReading(d: Dialect, body: seq<Read>, k: nat, tail: seq<Read>, parse: string -> Delta)
    requires k < |body| && body[k].Chunk? && ChunkDone(d, body[k].text)
    ensures ReadStream(d, body[..k + 1] + tail, parse) == ReadStream(d, body[..k + 1], parse)
    decreases k
  {
    var r1 := body[..k + 1] + tail;
    var r2 := body[..k + 1];
    assert r1[0] == r2[0] == body[0];
    if k > 0 {
      assert r1[1..] == body[1..][..k] + tail;
      assert r2[1..] == body[1..][..k];
      DoneStopsReading(d, body[1..], k - 1, tail, parse);
    }
    SameHeadSameStream(d, r1, r2, parse);
  }

  /** The read loop at a failed read: the stream ends as failed, with no text. */
  lemma ReadStepFails(d: Dialect, body: seq<Read>, i: nat, parse: string -> Delta)
    requires i < |body| && body[i].ReadError?
    ensures ReadStream(d, body[i..], parse) == Outcome("", true)
  {
    assert body[i..][0] == body[i];
  }

  /** The read loop at a chunk holding "[DONE]": the stream ends with that chunk's text. */
  lemma ReadStepDone(d: Dialect, body: seq<Read>, i: nat, parse: string -> Delta)
    requires i < |body| && body[i].Chunk? && ChunkDone(d, body[i].text)
    ensures ReadStream(d, body[i..], parse) == Outcome(ChunkText(d, body[i].text, parse), false)
  {
    assert body[i..][0] == body[i];
  }

  /**
   * The read loop at any other chunk: its text moves from what is still to
   * come into `acc`, and the rest of the body decides the failure.
   */
  lemma ReadStepMore(d: Dialect, body: seq<Read>, i: nat, parse: string -> Delta, total: string, acc: string)
    requires i < |body| && body[i].Chunk? && !ChunkDone(d, body[i].text)
    requires total == acc + ReadStream(d, body[i..], parse).text
    ensures total == (acc + ChunkText(d, body[i].text, parse)) + ReadStream(d, body[i + 1..], parse).text
    ensures ReadStream(d, body[i..], parse).failed == ReadStream(d, body[i + 1..], parse).failed
  {
    assert body[i..][0] == body[i] && body[i..][1..] == body[i + 1..];
    var t, later := ChunkText(d, body[i].text, parse), ReadStream(d, body[i + 1..], parse).text;
    AppendAssoc(acc, t, later);
  }

  /** The empty chunk decoded after the reader reports done adds nothing. */
  lemma EmptyChunkAddsNothing(d: Dialect, parse: string -> Delta)
    ensures ChunkText(d, "", parse) == "" && !ChunkDone(d, "")
  {
    assert Split("", Separator(d)) == [""];
  }
}
