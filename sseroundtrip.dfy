/**
 * The relay and its two readers together: the events the completion routes
 * write are read back by the explanation modal (split on blank lines) and by
 * the article page (split on line breaks) as exactly the deltas of the
 * parts, in order. `JSON.stringify` of an object yields text that starts
 * with '{', ends with '}' and holds no raw line break; that is all the proofs
 * assume about it.
 */
module SseRoundTrip {
  import opened JsText
  import opened StreamClient
  import opened SseRelay
  import opened ExplanationModal
  import opened ArticlePage

  /** The shape of `JSON.stringify` of an object. */
  predicate CompactObject(json: string) {
    |json| >= 2 && json[0] == '{' && json[|json| - 1] == '}' && '\n' !in json
  }

  predicate AllCompact(jsons: seq<string>) {
    forall i :: 0 <= i < |jsons| ==> CompactObject(jsons[i])
  }

  function DataLine(json: string): string {
    DataPrefix + json
  }

  function DataLines(jsons: seq<string>): (lines: seq<string>)
    ensures |lines| == |jsons| && forall i :: 0 <= i < |jsons| ==> lines[i] == DataLine(jsons[i])
  {
    seq(|jsons|, i requires 0 <= i < |jsons| => DataLine(jsons[i]))
  }

  /** The lines the article page sees: each event is its data line and an empty line, and the text ends empty. */
  function PageLinesOf(jsons: seq<string>): (lines: seq<string>)
    ensures |lines| == 2 * |jsons| + 1
    decreases |jsons|
  {
    if jsons == [] then [""] else [DataLine(jsons[0])] + ([""] + PageLinesOf(jsons[1..]))
  }

  function ConcatDeltas(parse: string -> Delta, jsons: seq<string>): string
    decreases |jsons|
  {
    if jsons == [] then "" else DeltaText(parse, jsons[0]) + ConcatDeltas(parse, jsons[1..])
  }

  function Flatten(groups: seq<seq<string>>): seq<string>
    decreases |groups|
  {
    if groups == [] then [] else groups[0] + Flatten(groups[1..])
  }

  /** A body whose every read delivers a whole number of events: group `i` of JSON texts is read `i`. */
  function ChunksOf(groups: seq<seq<string>>): (body: seq<Read>)
    ensures |body| == |groups| && forall i :: 0 <= i < |groups| ==> body[i] == Chunk(Concat(Frames(groups[i])))
  {
    seq(|groups|, i requires 0 <= i < |groups| => Chunk(Concat(Frames(groups[i]))))
  }

  // ---------------------------------------------------------------- the written text

  lemma {:induction false} FramesAreBlankLineJoin(jsons: seq<string>)
    ensures Concat(Frames(jsons)) == Join(DataLines(jsons) + [""], EventEnd)
    decreases |jsons|
  {
    if jsons != [] {
      var rest := jsons[1..];
      FramesAreBlankLineJoin(rest);
      assert Frames(jsons)[1..] == Frames(rest);
      var parts := DataLines(jsons) + [""];
      assert parts[0] == DataLine(jsons[0]) && parts[1..] == DataLines(rest) + [""];
    } else {
      assert Frames(jsons) == [];
      assert DataLines(jsons) + [""] == [""];
    }
  }

  lemma {:induction false} FramesAreLineJoin(jsons: seq<string>)
    ensures Concat(Frames(jsons)) == Join(PageLinesOf(jsons), "\n")
    decreases |jsons|
  {
    if jsons != [] {
      var rest := jsons[1..];
      FramesAreLineJoin(rest);
      assert Frames(jsons)[1..] == Frames(rest);
      var parts := PageLinesOf(jsons);
      assert parts[1..] == [""] + PageLinesOf(rest);
      assert parts[1..][1..] == PageLinesOf(rest);
      assert Frame(jsons[0]) == DataLine(jsons[0]) + "\n" + "" + "\n" + "";
    } else {
      assert Frames(jsons) == [];
    }
  }

  lemma DataLineFree(json: string)
    requires '\n' !in json
    ensures '\n' !in DataLine(json)
  {
    assert forall k :: 0 <= k < |DataPrefix| ==> DataLine(json)[k] == DataPrefix[k];
    assert forall k :: |DataPrefix| <= k < |DataLine(json)| ==> DataLine(json)[k] == json[k - |DataPrefix|];
  }

  /**
   * Splitting the written events on blank lines gives one "data: " line per
   * part, in order, and a final empty piece; removing "data: " gives each
   * JSON text back. The JSON texts must hold no line break: one that ends in
   * "\n" already moves that line break into the next piece.
   */
  lemma SplitFramesOnBlankLines(jsons: seq<string>)
    requires forall i :: 0 <= i < |jsons| ==> '\n' !in jsons[i]
    ensures Split(Concat(Frames(jsons)), EventEnd) == DataLines(jsons) + [""]
    ensures forall i :: 0 <= i < |jsons| ==>
      StartsWith(DataLines(jsons)[i], DataPrefix) && StripDataPrefix(ModalEvents, DataLines(jsons)[i]) == jsons[i]
  {
    FramesAreBlankLineJoin(jsons);
    var parts := DataLines(jsons) + [""];
    forall i | 0 <= i < |parts| ensures '\n' !in parts[i] {
      if i < |jsons| {
        DataLineFree(jsons[i]);
      }
    }
    SplitJoin(parts, EventEnd);
  }

  /** Splitting the written events on line breaks gives each data line followed by an empty line. */
  lemma SplitFramesOnNewlines(jsons: seq<string>)
    requires forall i :: 0 <= i < |jsons| ==> '\n' !in jsons[i]
    ensures Split(Concat(Frames(jsons)), "\n") == PageLinesOf(jsons)
  {
    FramesAreLineJoin(jsons);
    PageLinesFree(jsons);
    SplitJoin(PageLinesOf(jsons), "\n");
  }

  lemma {:induction false} PageLinesFree(jsons: seq<string>)
    requires forall i :: 0 <= i < |jsons| ==> '\n' !in jsons[i]
    ensures forall i :: 0 <= i < |PageLinesOf(jsons)| ==> '\n' !in PageLinesOf(jsons)[i]
    decreases |jsons|
  {
    if jsons != [] {
      PageLinesFree(jsons[1..]);
      DataLineFree(jsons[0]);
      var lines := PageLinesOf(jsons);
      forall i | 0 <= i < |lines| ensures '\n' !in lines[i] {
        if i >= 2 {
          assert lines[i] == PageLinesOf(jsons[1..])[i - 2];
        }
      }
    }
  }

  /** Both ways of removing "data: " leave the JSON text, which trimming does not change. */
  lemma DataLinePayload(d: Dialect, json: string)
    requires CompactObject(json)
    ensures StartsWith(DataLine(json), DataPrefix) && Trim(StripDataPrefix(d, DataLine(json))) == json
  {
    StripDataLine(d, json);
    TrimUnpadded(json);
  }

  lemma StripDataLine(d: Dialect, json: string)
    ensures StartsWith(DataLine(json), DataPrefix) && StripDataPrefix(d, DataLine(json)) == json
  {
    var line := DataLine(json);
    assert line[..|DataPrefix|] == DataPrefix && line[|DataPrefix|..] == json;
    if d == PageLines {
      ReplaceFirstAtStart(line, DataPrefix, "");
      assert "" + json == json;
    }
  }

  /** An object's text is never the "[DONE]" sentinel. */
  lemma ObjectIsNotDone(json: string)
    requires |json| > 0 && json[0] == '{'
    ensures json != DoneSentinel
  {
    assert DoneSentinel[0] == '[';
  }

  /** A line with one event's JSON text: both readers take that text as the payload. */
  lemma DataLineMeaning(d: Dialect, json: string, parse: string -> Delta)
    requires CompactObject(json)
    ensures EventOf(d, DataLine(json)) == Data(json)
    ensures Contribution(d, DataLine(json), parse) == DeltaText(parse, json)
  {
    var line := DataLine(json);
    DataLinePayload(d, json);
    ObjectIsNotDone(json);
    DataEvent(d, line, json, parse);
  }

  lemma EmptyLineMeaning(d: Dialect, parse: string -> Delta)
    ensures EventOf(d, "") == Skip && Contribution(d, "", parse) == ""
  {
  }

  // ---------------------------------------------------------------- one chunk

  lemma DataLinesCons(jsons: seq<string>)
    requires |jsons| > 0
    ensures DataLines(jsons) + [""] == [DataLine(jsons[0])] + (DataLines(jsons[1..]) + [""])
  {
    var a := DataLines(jsons) + [""];
    var b := [DataLine(jsons[0])] + (DataLines(jsons[1..]) + [""]);
    forall i | 0 <= i < |a| ensures a[i] == b[i] {
      if 0 < i < |jsons| {
        assert b[i] == DataLines(jsons[1..])[i - 1];
      }
    }
  }

  lemma {:induction false} BlankLineSegments(jsons: seq<string>, parse: string -> Delta)
    requires AllCompact(jsons)
    ensures SegmentsText(ModalEvents, DataLines(jsons) + [""], parse) == ConcatDeltas(parse, jsons)
    ensures !SegmentsDone(ModalEvents, DataLines(jsons) + [""])
    decreases |jsons|
  {
    var segs := DataLines(jsons) + [""];
    if jsons == [] {
      assert segs == [""];
      SingleSegment(ModalEvents, "", parse);
    } else {
      var rest := jsons[1..];
      BlankLineSegments(rest, parse);
      DataLineMeaning(ModalEvents, jsons[0], parse);
      DataLinesCons(jsons);
      SegmentsCons(ModalEvents, DataLine(jsons[0]), DataLines(rest) + [""], parse);
    }
  }

  lemma {:induction false} LineSegments(jsons: seq<string>, parse: string -> Delta)
    requires AllCompact(jsons)
    ensures SegmentsText(PageLines, PageLinesOf(jsons), parse) == ConcatDeltas(parse, jsons)
    ensures !SegmentsDone(PageLines, PageLinesOf(jsons))
    decreases |jsons|
  {
    var segs := PageLinesOf(jsons);
    if jsons == [] {
      SingleSegment(PageLines, "", parse);
    } else {
      var rest := jsons[1..];
      LineSegments(rest, parse);
      DataLineMeaning(PageLines, jsons[0], parse);
      var tail := PageLinesOf(rest);
      SegmentsCons(PageLines, "", tail, parse);
      SegmentsCons(PageLines, DataLine(jsons[0]), [""] + tail, parse);
      var later := ConcatDeltas(parse, rest);
      assert "" + later == later;
    }
  }

  /** A chunk made of whole events adds the deltas of its parts in order and holds no "[DONE]". */
  lemma ChunkOfFrames(d: Dialect, jsons: seq<string>, parse: string -> Delta)
    requires AllCompact(jsons)
    ensures ChunkText(d, Concat(Frames(jsons)), parse) == ConcatDeltas(parse, jsons)
    ensures !ChunkDone(d, Concat(Frames(jsons)))
  {
    match d
    case ModalEvents =>
      SplitFramesOnBlankLines(jsons);
      BlankLineSegments(jsons, parse);
    case PageLines =>
      SplitFramesOnNewlines(jsons);
      LineSegments(jsons, parse);
  }

  // ---------------------------------------------------------------- the whole stream

  lemma {:induction false} ConcatDeltasAppend(parse: string -> Delta, a: seq<string>, b: seq<string>)
    ensures ConcatDeltas(parse, a + b) == ConcatDeltas(parse, a) + ConcatDeltas(parse, b)
    decreases |a|
  {
    if a == [] {
      assert a + b == b;
    } else {
      assert (a + b)[0] == a[0] && (a + b)[1..] == a[1..] + b;
      ConcatDeltasAppend(parse, a[1..], b);
    }
  }

  /**
   * Whenever every read delivers whole events, the reader gathers exactly
   * the deltas of all parts, in order, and does not fail.
   */
  lemma {:induction false} StreamOfFrames(d: Dialect, groups: seq<seq<string>>, parse: string -> Delta)
    requires forall g :: 0 <= g < |groups| ==> AllCompact(groups[g])
    ensures ReadStream(d, ChunksOf(groups), parse) == Outcome(ConcatDeltas(parse, Flatten(groups)), false)
    decreases |groups|
  {
    var body := ChunksOf(groups);
    if groups == [] {
      EmptyChunkAddsNothing(d, parse);
    } else {
      StreamOfFrames(d, groups[1..], parse);
      ChunkOfFrames(d, groups[0], parse);
      assert body[0] == Chunk(Concat(Frames(groups[0]))) && body[1..] == ChunksOf(groups[1..]);
      ConcatDeltasAppend(parse, groups[0], Flatten(groups[1..]));
    }
  }

  function Singletons(jsons: seq<string>): (groups: seq<seq<string>>)
    ensures |groups| == |jsons| && forall i :: 0 <= i < |jsons| ==> groups[i] == [jsons[i]]
  {
    seq(|jsons|, i requires 0 <= i < |jsons| => [jsons[i]])
  }

  lemma {:induction false} FlattenSingletons(jsons: seq<string>)
    ensures Flatten(Singletons(jsons)) == jsons
    decreases |jsons|
  {
    if jsons != [] {
      assert Singletons(jsons)[1..] == Singletons(jsons[1..]);
      FlattenSingletons(jsons[1..]);
      assert jsons == [jsons[0]] + jsons[1..];
    }
  }

  /**
   * What a route writes is what a reader gathers: when the reader receives
   * each enqueued event as one read, it gathers the deltas of the
   * completion's parts, in order.
   */
  lemma RelayRoundTrip<P>(d: Dialect, parts: seq<P>, stringify: P -> string, parse: string -> Delta)
    requires forall i :: 0 <= i < |parts| ==> CompactObject(stringify(parts[i]))
    ensures var frames := Frames(Stringified(parts, stringify));
      ReadStream(d, seq(|frames|, i requires 0 <= i < |frames| => Chunk(frames[i])), parse)
        == Outcome(ConcatDeltas(parse, Stringified(parts, stringify)), false)
  {
    var jsons := Stringified(parts, stringify);
    var frames := Frames(jsons);
    var groups := Singletons(jsons);
    forall i | 0 <= i < |jsons| ensures Concat(Frames(groups[i])) == frames[i] {
      assert Frames([jsons[i]]) == [Frame(jsons[i])];
      assert Concat([Frame(jsons[i])]) == Frame(jsons[i]) + Concat([]);
      assert Frame(jsons[i]) + "" == Frame(jsons[i]);
    }
    assert seq(|frames|, i requires 0 <= i < |frames| => Chunk(frames[i])) == ChunksOf(groups);
    StreamOfFrames(d, groups, parse);
    FlattenSingletons(jsons);
  }

  /** The modal then shows the deltas, or keeps what it showed when no part carried one. */
  lemma RelayedExplanation(previous: string, groups: seq<seq<string>>, parse: string -> Delta)
    requires forall g :: 0 <= g < |groups| ==> AllCompact(groups[g])
    ensures var text := ConcatDeltas(parse, Flatten(groups));
      ExplanationAfter(previous, HttpResponse(true, ChunksOf(groups)), parse) == if |text| == 0 then previous else text
  {
    StreamOfFrames(ModalEvents, groups, parse);
  }

  /** The page then shows the deltas and clears its "Formatting" notice. */
  lemma RelayedFormatting(groups: seq<seq<string>>, parse: string -> Delta)
    requires forall g :: 0 <= g < |groups| ==> AllCompact(groups[g])
    ensures FormatOutcome(HttpResponse(true, ChunksOf(groups)), parse) == Outcome(ConcatDeltas(parse, Flatten(groups)), false)
  {
    StreamOfFrames(PageLines, groups, parse);
  }

  /** The events of a text ending in a line break and of a second text. */
  lemma FramesOfTrailingBreak(x: string, y: string)
    ensures Concat(Frames([x + "\n", y])) == DataLine(x) + EventEnd + (['\n'] + DataLine(y) + EventEnd)
  {
    var fs := Frames([x + "\n", y]);
    assert fs[0] == Frame(x + "\n") && fs[1..][0] == Frame(y) && fs[1..][1..] == [];
    assert Concat(fs[1..]) == Frame(y) + Concat([]);
    assert Concat(fs[1..]) == Frame(y);
    assert Frame(x + "\n") == DataLine(x) + EventEnd + ['\n'];
  }

  /** A character that does not start a separator joins the first piece of the rest. */
  lemma SplitConsChar(c: char, s: string, sep: string)
    requires |sep| > 0 && (|s| + 1 >= |sep| ==> ([c] + s)[..|sep|] != sep)
    ensures Split([c] + s, sep) == [[c] + Split(s, sep)[0]] + Split(s, sep)[1..]
  {
    var t := [c] + s;
    assert t[1..] == s;
    if |t| < |sep| {
      assert Split(s, sep) == [s];
    }
  }

  /** The second event, with the line break it took over, splits into itself and the end. */
  lemma SplitShiftedEvent(y: string)
    requires '\n' !in y
    ensures Split(['\n'] + DataLine(y) + EventEnd, EventEnd) == [['\n'] + DataLine(y), ""]
  {
    var line := DataLine(y);
    DataLineFree(y);
    assert line[0] == 'd';
    var rest := line + EventEnd + "";
    assert rest == line + EventEnd;
    SplitAfterPiece(line, EventEnd, "");
    assert Split("", EventEnd) == [""];
    assert (['\n'] + rest)[..2][1] == line[0];
    SplitConsChar('\n', rest, EventEnd);
    assert ['\n'] + line + EventEnd == ['\n'] + rest;
  }

  /**
   * Leaving out only "\n\n" from the JSON texts is not enough: a text that
   * ends in "\n" pushes a line break into the next event, which then no
   * longer starts with "data: " and is skipped.
   */
  lemma TrailingLineBreakLosesNextEvent(x: string, y: string, parse: string -> Delta)
    requires '\n' !in x && '\n' !in y
    ensures Split(Concat(Frames([x + "\n", y])), EventEnd) == [DataLine(x), ['\n'] + DataLine(y), ""]
    ensures EventOf(ModalEvents, ['\n'] + DataLine(y)) == Skip
  {
    FramesOfTrailingBreak(x, y);
    DataLineFree(x);
    SplitAfterPiece(DataLine(x), EventEnd, ['\n'] + DataLine(y) + EventEnd);
    SplitShiftedEvent(y);
    var shifted := ['\n'] + DataLine(y);
    assert !StartsWith(shifted, DataPrefix) by {
      assert shifted[0] != DataPrefix[0];
    }
    SkippedEvent(ModalEvents, shifted, parse);
  }
}
