/**
 * The state of the article listing page and the handlers that change it:
 * loading the articles, the category filter effect, the side list's scroll
 * buttons and `handleFormatArticle`, which streams a formatted version of an
 * article into the page line by line. The query service is an abstract
 * result value; JSON parsing is the abstract `parse` of StreamClient.
 */
module ArticlePage {
  import opened Wrappers
  import opened JsText
  import opened Listing
  import opened StreamClient

  /** What the article query resolves to: an error, or the rows it returned in the requested order. */
  datatype QueryResult = QueryError(message: string) | Rows(data: seq<Article>)

  /**
   * What `handleFormatArticle` leaves behind: the formatted text, and whether
   * it ended by a throw (a rejected fetch or a failed read), which it does
   * not catch.
   */
  function FormatOutcome(res: FetchResult, parse: string -> Delta): (o: Outcome)
    ensures res.NetworkError? ==> o == Outcome("", true)
    ensures res.HttpResponse? && !res.ok ==> o == Outcome("", false)
    ensures res.HttpResponse? && res.ok ==> o == ReadStream(PageLines, res.body, parse)
  {
    match res
    case NetworkError => Outcome("", true)
    case HttpResponse(ok, body) => if ok then ReadStream(PageLines, body, parse) else Outcome("", false)
  }

  /**
   * The `forEach` callback on one line, short of its effect: the text part it
   * would append (empty when there is none) and whether it saw "[DONE]".
   */
  method ReadLine(line: string, parse: string -> Delta) returns (textPart: string, isDone: bool)
    ensures textPart == Contribution(PageLines, line, parse)
    ensures isDone <==> EventOf(PageLines, line) == Done
  {
    textPart, isDone := "", false;
    if StartsWith(line, DataPrefix) {
      var data := Trim(ReplaceFirst(line, DataPrefix, ""));
      if data == DoneSentinel {
        DoneEvent(PageLines, line, parse);
        isDone := true;
      } else {
        DataEvent(PageLines, line, data, parse);
        match parse(data) {
          case Content(text) => textPart := text;
          case NoContent =>
          case Unparseable =>
        }
      }
    } else {
      SkippedEvent(PageLines, line, parse);
    }
  }

  class Page {
    var articles: seq<Article>
    var filteredArticles: seq<Article>
    var selectedCategory: string
    var latestArticleId: Option<int>
    var visibleArticles: Window
    var formattedArticle: string
    var isFormatting: bool
    var showFormattedModal: bool

    /** The side list's window always spans four articles. */
    predicate Valid()
      reads this
    {
      visibleArticles.end == visibleArticles.start + 4
    }

    /** The initial state of every `useState` modelled here. */
    constructor ()
      ensures Valid()
      ensures articles == [] && filteredArticles == [] && selectedCategory == "all"
      ensures latestArticleId == None && visibleArticles == InitialWindow
      ensures formattedArticle == "" && !isFormatting && !showFormattedModal
    {
      articles, filteredArticles := [], [];
      selectedCategory := "all";
      latestArticleId := None;
      visibleArticles := InitialWindow;
      formattedArticle := "";
      isFormatting, showFormattedModal := false, false;
    }

    /** `isNew`, read against the page's stored latest id. */
    function IsNewArticle(articleId: int): (r: bool)
      reads this
      ensures r <==> latestArticleId == Some(articleId)
    {
      IsNew(latestArticleId, articleId)
    }

    /**
     * `fetchArticles` once the query has resolved: an error changes nothing;
     * rows replace both lists, and a non-empty result also records the id of
     * the latest article. An empty result keeps the previous latest id.
     */
    method FetchArticles(result: QueryResult)
      requires Valid()
      modifies this
      ensures Valid()
      ensures result.QueryError? ==>
        && articles == old(articles) && filteredArticles == old(filteredArticles)
        && latestArticleId == old(latestArticleId)
      ensures result.Rows? ==> articles == result.data && filteredArticles == result.data
      ensures result.Rows? && |result.data| > 0 ==> latestArticleId == Some(LatestArticle(result.data).id)
      ensures result.Rows? && |result.data| == 0 ==> latestArticleId == old(latestArticleId)
      ensures selectedCategory == old(selectedCategory) && visibleArticles == old(visibleArticles)
      ensures formattedArticle == old(formattedArticle) && isFormatting == old(isFormatting)
      ensures showFormattedModal == old(showFormattedModal)
    {
      match result {
        case QueryError(_) =>
        case Rows(data) =>
          articles := data;
          filteredArticles := data;
          if |data| > 0 {
            latestArticleId := Some(LatestArticle(data).id);
          }
      }
    }

    /** The effect on `[articles, selectedCategory]`: recompute the filtered list. */
    method FilterEffect()
      requires Valid()
      modifies this`filteredArticles
      ensures Valid()
      ensures filteredArticles == CategoryFilter(articles, selectedCategory)
    {
      var updated := articles;
      if selectedCategory != "all" {
        updated := KeepMatching(updated, selectedCategory);
      }
      filteredArticles := updated;
    }

    /** The category select's `onValueChange`. */
    method SelectCategory(value: string)
      requires Valid()
      modifies this`selectedCategory
      ensures Valid()
      ensures selectedCategory == value
    {
      selectedCategory := value;
    }

    /**
     * `handleScroll(direction)` as written: the window moves by two, bounded
     * as `Scroll` says. On a list of five or more articles, from a window that
     * starts inside the side list, that is the clamped step.
     */
    method HandleScroll(direction: string)
      requires Valid()
      modifies this`visibleArticles
      ensures Valid()
      ensures visibleArticles == Scroll(old(visibleArticles), direction, |filteredArticles|)
      ensures |filteredArticles| >= 5 && old(visibleArticles).start >= 1 ==>
        visibleArticles == ScrollClamped(old(visibleArticles), direction, |filteredArticles|)
    {
      if |filteredArticles| >= 5 && visibleArticles.start >= 1 {
        ScrollClampedAgreesOnLongLists(visibleArticles, direction, |filteredArticles|);
      }
      visibleArticles := Scroll(visibleArticles, direction, |filteredArticles|);
    }

    /**
     * The `forEach` over the "\n"-separated lines of one chunk: every line is
     * visited and each non-empty text part is appended to the shown article.
     * Returns whether a "[DONE]" line was seen.
     */
    method ReadLines(chunk: string, parse: string -> Delta) returns (sawDone: bool)
      modifies this`formattedArticle
      ensures sawDone == ChunkDone(PageLines, chunk)
      ensures formattedArticle == old(formattedArticle) + ChunkText(PageLines, chunk, parse)
    {
      var lines := Split(chunk, "\n");
      ghost var total := formattedArticle + SegmentsText(PageLines, lines[0..], parse);
      ghost var allDone := SegmentsDone(PageLines, lines[0..]);
      sawDone := false;
      var j := 0;
      while j < |lines|
        invariant 0 <= j <= |lines|
        invariant total == formattedArticle + SegmentsText(PageLines, lines[j..], parse)
        invariant allDone == (sawDone || SegmentsDone(PageLines, lines[j..]))
      {
        var textPart, isDone := ReadLine(lines[j], parse);
        SegmentTextStep(PageLines, lines, j, parse, total, formattedArticle, textPart);
        SegmentDoneStep(PageLines, lines, j, allDone, sawDone, isDone);
        if isDone {
          sawDone := true;
        }
        if |textPart| != 0 {
          formattedArticle := formattedArticle + textPart;
        } else {
          AppendEmpty(formattedArticle, textPart);
        }
        j := j + 1;
      }
      assert lines[j..] == [];
      SegmentsFromStart(PageLines, lines, parse);
    }

    /**
     * The `while (!done)` loop of `handleFormatArticle` over the reads of the
     * body. Returns whether a read threw; the text read until then stays shown.
     */
    method ReadBody(body: seq<Read>, parse: string -> Delta) returns (threw: bool)
      modifies this`formattedArticle
      ensures threw == ReadStream(PageLines, body, parse).failed
      ensures formattedArticle == old(formattedArticle) + ReadStream(PageLines, body, parse).text
    {
      ghost var full := ReadStream(PageLines, body, parse);
      ghost var total := formattedArticle + full.text;
      threw := false;
      var done := false;
      var i := 0;
      assert body[0..] == body;
      while !done
        invariant 0 <= i <= |body| + 1
        invariant !done ==> i <= |body| && !threw
        invariant !done ==> total == formattedArticle + ReadStream(PageLines, body[i..], parse).text
        invariant !done ==> full.failed == ReadStream(PageLines, body[i..], parse).failed
        invariant done ==> threw == full.failed && total == formattedArticle
        decreases |body| + 1 - i, !done
      {
        ghost var rest := ReadStream(PageLines, body[i..], parse);
        ghost var before := formattedArticle;
        ghost var at := i;
        var chunk := "";
        var doneReading := true;
        if i < |body| {
          if body[i].ReadError? {
            ReadStepFails(PageLines, body, i, parse);
            threw := true;
            done := true;
            continue;
          }
          chunk, doneReading := body[i].text, false;
        } else {
          EmptyChunkAddsNothing(PageLines, parse);
        }
        i := i + 1;
        done := doneReading;
        var sawDone := ReadLines(chunk, parse);
        if sawDone {
          done := true;
        }
        if !doneReading {
          if sawDone {
            ReadStepDone(PageLines, body, at, parse);
          } else {
            ReadStepMore(PageLines, body, at, parse, total, before);
          }
        } else if done {
          assert |rest.text| == 0 && !rest.failed;
          assert formattedArticle == before;
        }
      }
    }

    /**
     * `handleFormatArticle`: clear the shown text, show the modal and the
     * "Formatting" notice, then stream. A non-ok response clears the notice
     * at once; the notice also clears once the stream ends, but a rejected
     * fetch or a failed read throws past that and leaves it shown.
     * Returns whether the handler ended by a throw.
     */
    method HandleFormatArticle(res: FetchResult, parse: string -> Delta) returns (threw: bool)
      requires Valid()
      modifies this`formattedArticle, this`isFormatting, this`showFormattedModal
      ensures Valid()
      ensures showFormattedModal
      ensures formattedArticle == FormatOutcome(res, parse).text
      ensures isFormatting == threw && threw == FormatOutcome(res, parse).failed
    {
      formattedArticle := "";
      isFormatting := true;
      showFormattedModal := true;
      match res {
        case NetworkError =>
          threw := true;
        case HttpResponse(ok, body) =>
          if !ok {
            isFormatting := false;
            threw := false;
          } else {
            threw := ReadBody(body, parse);
            if !threw {
              isFormatting := false;
            }
          }
      }
    }
  }
}
