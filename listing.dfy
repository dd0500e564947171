/**
 * The pure helpers of the article listing page: the category filter, the
 * reduction that picks the latest article, the "NEW" tag test, the public
 * storage URL, the 100-word teaser, the side list's scroll window and the
 * paragraph / double-backtick splitter used to render a formatted article.
 * Dates are modelled as integers (time stamps).
 */
module Listing {
  import opened Wrappers
  import opened JsText

  /** A row of the article table. */
  datatype Article = Article(
    id: int,
    title: string,
    image: string,
    createdDate: int,
    writeup: string,
    category: string,
    datedOrNot: bool,
    pdfFile: string)

  // ---------------------------------------------------------------- category filter

  /** The category test: the lower-cased category contains the lower-cased selection. */
  predicate MatchesCategory(a: Article, selected: string)
    ensures MatchesCategory(a, selected) <==> IndexOf(ToLower(a.category), ToLower(selected)).Some?
    ensures |selected| == 0 ==> MatchesCategory(a, selected)
  {
    Contains(ToLower(a.category), ToLower(selected))
  }

  /** `r` keeps the order of `s`: it is `s` with some elements left out. */
  predicate IsSubsequence<T(==)>(r: seq<T>, s: seq<T>)
    decreases |s|
  {
    r == [] || (s != [] && ((r[0] == s[0] && IsSubsequence(r[1..], s[1..])) || IsSubsequence(r, s[1..])))
  }

  /** `Array.prototype.filter` with the category test. */
  function KeepMatching(articles: seq<Article>, selected: string): (r: seq<Article>)
    ensures IsSubsequence(r, articles)
    ensures forall a :: a in r ==> MatchesCategory(a, selected)
    ensures forall a :: multiset(r)[a] == if MatchesCategory(a, selected) then multiset(articles)[a] else 0
    decreases |articles|
  {
    if articles == [] then []
    else
      var rest := KeepMatching(articles[1..], selected);
      assert articles == [articles[0]] + articles[1..];
      if MatchesCategory(articles[0], selected) then [articles[0]] + rest else rest
  }

  /** The category filter effect: the selection "all" shows every article. */
  function CategoryFilter(articles: seq<Article>, selected: string): (r: seq<Article>)
    ensures selected == "all" ==> r == articles
    ensures selected != "all" ==> r == KeepMatching(articles, selected)
  {
    if selected != "all" then KeepMatching(articles, selected) else articles
  }

  // ---------------------------------------------------------------- latest article

  /** One step of the reduction: the current article replaces the latest only if strictly newer. */
  function Later(latest: Article, current: Article): (r: Article)
    ensures r == latest || r == current
    ensures r.createdDate >= latest.createdDate && r.createdDate >= current.createdDate
    ensures current.createdDate <= latest.createdDate ==> r == latest
  {
    if current.createdDate > latest.createdDate then current else latest
  }

  /** The reduction from `latest` over `rest`; FoldLatestFinds says what it finds. */
  function FoldLatest(latest: Article, rest: seq<Article>): Article
    decreases |rest|
  {
    if rest == [] then latest else FoldLatest(Later(latest, rest[0]), rest[1..])
  }

  /** `data.reduce(Later, data[0])`. */
  function LatestArticle(data: seq<Article>): (r: Article)
    requires |data| > 0
    ensures r in data
    ensures forall j :: 0 <= j < |data| ==> data[j].createdDate <= r.createdDate
  {
    FoldLatestFinds(data, 0, 0);
    assert data[0..] == data;
    FoldLatest(data[0], data)
  }

  /** `k` is the first position of a maximal date among the first `i` articles. */
  ghost predicate FirstNewestUpTo(data: seq<Article>, k: nat, i: nat)
    requires k < |data| && i <= |data|
  {
    && (forall j :: 0 <= j < i ==> data[j].createdDate <= data[k].createdDate)
    && (forall j :: 0 <= j < k ==> data[j].createdDate < data[k].createdDate)
  }

  lemma {:induction false} FoldLatestFinds(data: seq<Article>, k: nat, i: nat)
    requires k < |data| && i <= |data|
    requires FirstNewestUpTo(data, k, i)
    ensures exists m :: 0 <= m < |data| && FoldLatest(data[k], data[i..]) == data[m] && FirstNewestUpTo(data, m, |data|)
    decreases |data| - i
  {
    if i == |data| {
      assert data[i..] == [];
    } else {
      var rest := data[i..];
      assert rest[0] == data[i] && rest[1..] == data[i + 1..];
      var k' := if data[i].createdDate > data[k].createdDate then i else k;
      assert Later(data[k], data[i]) == data[k'];
      assert FirstNewestUpTo(data, k', i + 1) by {
        forall j | 0 <= j < i + 1 ensures data[j].createdDate <= data[k'].createdDate {
        }
        forall j | 0 <= j < k' ensures data[j].createdDate < data[k'].createdDate {
        }
      }
      FoldLatestFinds(data, k', i + 1);
    }
  }

  /**
   * The reduction returns an article of the list whose date is at least every
   * other date, and, because the comparison is strict, the first such one.
   */
  lemma LatestArticleIsFirstNewest(data: seq<Article>)
    requires |data| > 0
    ensures exists m ::
              && 0 <= m < |data| && LatestArticle(data) == data[m]
              && (forall j :: 0 <= j < |data| ==> data[j].createdDate <= data[m].createdDate)
              && (forall j :: 0 <= j < m ==> data[j].createdDate < data[m].createdDate)
  {
    FoldLatestFinds(data, 0, 0);
    var m :| 0 <= m < |data| && FoldLatest(data[0], data[0..]) == data[m] && FirstNewestUpTo(data, m, |data|);
    assert data[0..] == data;
  }

  /** `isNew`: an article is tagged NEW exactly when its id is the stored latest id. */
  function IsNew(latestArticleId: Option<int>, articleId: int): (r: bool)
    ensures r <==> latestArticleId.Some? && latestArticleId.value == articleId
  {
    latestArticleId == Some(articleId)
  }

  // ---------------------------------------------------------------- public URL

  const StoragePrefix := "https://ghsggshkbeszyvtufklf.supabase.co/storage/v1/object/public/"

  /** `getPublicUrl(bucket, path)`: prefix, bucket, '/', and the path less one leading '/'. */
  function PublicUrl(bucket: string, path: string): (url: string)
    ensures StartsWith(url, StoragePrefix + bucket + "/")
    ensures var rest := url[|StoragePrefix| + |bucket| + 1..];
      (StartsWith(path, "/") ==> "/" + rest == path) && (!StartsWith(path, "/") ==> rest == path)
  {
    var cleanPath := if StartsWith(path, "/") then path[1..] else path;
    assert StartsWith(path, "/") ==> path == "/" + path[1..];
    StoragePrefix + bucket + "/" + cleanPath
  }

  /** Only one leading '/' is removed: a path and the same path with one more leading '/' differ. */
  lemma PublicUrlRemovesOneSlash(bucket: string, path: string)
    requires !StartsWith(path, "/")
    ensures PublicUrl(bucket, "/" + path) == PublicUrl(bucket, path)
    ensures PublicUrl(bucket, "//" + path) != PublicUrl(bucket, path)
  {
    assert ("/" + path)[1..] == path;
    var u := PublicUrl(bucket, "//" + path);
    var n := |StoragePrefix| + |bucket| + 1;
    assert "/" + u[n..] == "//" + path;
    assert u[n..] == "/" + path;
    assert |u| == |PublicUrl(bucket, path)| + 1;
  }

  // ---------------------------------------------------------------- teaser

  /** `arr.slice(0, n)`. */
  function Take<T>(s: seq<T>, n: nat): (r: seq<T>)
    ensures |r| == if |s| <= n then |s| else n
    ensures r == s[..|r|]
  {
    if |s| <= n then s else s[..n]
  }

  /** `getFirst100Words`: the first 100 space-separated pieces, joined by spaces, then "...". */
  function First100Words(text: string): (r: string)
    ensures |r| >= 3 && r[|r| - 3..] == "..."
    ensures StartsWith(text, r[..|r| - 3])
  {
    TeaserHeadIsPrefix(text);
    Join(Take(Split(text, " "), 100), " ") + "..."
  }

  /** The joined first pieces of a text are a prefix of it. */
  lemma TeaserHeadIsPrefix(text: string)
    ensures StartsWith(text, Join(Take(Split(text, " "), 100), " "))
  {
    var parts := Split(text, " ");
    JoinSplit(text, " ");
    if |parts| > 100 {
      JoinAt(parts, " ", 100);
      assert Take(parts, 100) == parts[..100];
    }
  }

  /** A text of at most 100 pieces is shown whole. */
  lemma ShortTeaserIsWholeText(text: string)
    requires |Split(text, " ")| <= 100
    ensures First100Words(text) == text + "..."
  {
    JoinSplit(text, " ");
  }

  /**
   * A longer text is cut just before its 100th space: the teaser is a prefix
   * of the text whose pieces are exactly the first 100 pieces of the text.
   */
  lemma LongTeaserIsPrefix(text: string)
    requires |Split(text, " ")| > 100
    ensures exists m ::
              && 0 <= m < |text| && text[m] == ' '
              && First100Words(text) == text[..m] + "..."
              && Split(text[..m], " ") == Split(text, " ")[..100]
  {
    var parts := Split(text, " ");
    JoinSplit(text, " ");
    JoinAt(parts, " ", 100);
    var head := Join(parts[..100], " ");
    var m := |head|;
    assert text == head + " " + Join(parts[100..], " ");
    assert text[..m] == head && text[m] == ' ';
    SplitPiecesFree(text, ' ');
    assert forall i :: 0 <= i < 100 ==> ' ' !in parts[..100][i] by {
      forall i | 0 <= i < 100 ensures ' ' !in parts[..100][i] {
        assert parts[..100][i] == parts[i];
      }
    }
    SplitJoin(parts[..100], " ");
  }

  // ---------------------------------------------------------------- scroll window

  /** The half-open range of the side list that is shown: `slice(start, end)`. */
  datatype Window = Window(start: int, end: int)

  const InitialWindow := Window(1, 5)

  /** `handleScroll(direction)` as written, over a list of `count` filtered articles. */
  function Scroll(w: Window, direction: string, count: int): (r: Window)
    ensures direction == "up" ==> r.start >= 1 && r.end >= 5
    ensures direction != "up" ==> r.start <= count - 4 && r.end <= count
    ensures w.end == w.start + 4 ==> r.end == r.start + 4
  {
    var newStart := if direction == "up" then Max(w.start - 2, 1) else Min(w.start + 2, count - 4);
    var newEnd := if direction == "up" then Max(w.end - 2, 5) else Min(w.end + 2, count);
    Window(newStart, newEnd)
  }

  function Max(a: int, b: int): int { if a >= b then a else b }

  function Min(a: int, b: int): int { if a <= b then a else b }

  /** `Array.prototype.slice(start, end)`: negative bounds count from the end. */
  function JsSlice<T>(s: seq<T>, start: int, end: int): (r: seq<T>)
    ensures start >= 0 && start <= end <= |s| ==> r == s[start..end]
  {
    var lo := if start < 0 then Max(|s| + start, 0) else Min(start, |s|);
    var hi := if end < 0 then Max(|s| + end, 0) else Min(end, |s|);
    if hi <= lo then [] else s[lo..hi]
  }

  /**
   * On a list of two articles, scrolling down from the initial window gives a
   * negative start, and the side list then shows the featured article (the
   * first one, already shown on the left) again.
   */
  lemma ScrollDownRepeatsFeatured(a: Article, b: Article)
    ensures JsSlice([a, b], InitialWindow.start, InitialWindow.end) == [b]
    ensures Scroll(InitialWindow, "down", 2) == Window(-2, 2)
    ensures JsSlice([a, b], -2, 2) == [a, b]
  {
  }

  /** The scroll step with both bounds clamped, so the window never starts before the side list. */
  function ScrollClamped(w: Window, direction: string, count: int): (r: Window)
    ensures r.start >= 1 && r.end >= 5
    ensures w.end == w.start + 4 ==> r.end == r.start + 4
  {
    var newStart := if direction == "up" then Max(w.start - 2, 1) else Max(Min(w.start + 2, count - 4), 1);
    var newEnd := if direction == "up" then Max(w.end - 2, 5) else Max(Min(w.end + 2, count), 5);
    Window(newStart, newEnd)
  }

  /** With a window that starts at 1 or later, the side list never holds the featured article. */
  lemma ClampedSideListSkipsFeatured<T>(s: seq<T>, w: Window)
    requires w.start >= 1
    ensures JsSlice(s, w.start, w.end) == [] || exists lo, hi :: 1 <= lo < hi <= |s| && JsSlice(s, w.start, w.end) == s[lo..hi]
  {
  }

  /** On a list of at least five articles the clamped step and the written step agree. */
  lemma ScrollClampedAgreesOnLongLists(w: Window, direction: string, count: int)
    requires count >= 5 && w.start >= 1 && w.end == w.start + 4
    ensures ScrollClamped(w, direction, count) == Scroll(w, direction, count)
  {
  }

  // ---------------------------------------------------------------- rendering

  /** A piece of a paragraph: text at even positions, code at odd ones. */
  datatype Span = TextSpan(text: string) | CodeSpan(code: string)

  datatype Block = Paragraph(text: string) | CodeParagraph(spans: seq<Span>)

  const CodeFence := "``"
  const ParagraphBreak := "\n\n"

  function SpanText(sp: Span): string {
    match sp
    case TextSpan(t) => t
    case CodeSpan(c) => c
  }

  function SpansOf(parts: seq<string>): seq<Span> {
    seq(|parts|, i requires 0 <= i < |parts| => if i % 2 == 0 then TextSpan(parts[i]) else CodeSpan(parts[i]))
  }

  /** A paragraph holding "``" is cut at every "``"; any other paragraph is shown as it is. */
  function RenderParagraph(para: string): (b: Block)
    ensures b.Paragraph? <==> !Contains(para, CodeFence)
    ensures b.Paragraph? ==> b.text == para
    ensures b.CodeParagraph? ==> forall i :: 0 <= i < |b.spans| ==> (b.spans[i].TextSpan? <==> i % 2 == 0)
  {
    if Contains(para, CodeFence) then CodeParagraph(SpansOf(Split(para, CodeFence))) else Paragraph(para)
  }

  function BlockText(b: Block): string {
    match b
    case Paragraph(t) => t
    case CodeParagraph(spans) => Join(seq(|spans|, i requires 0 <= i < |spans| => SpanText(spans[i])), CodeFence)
  }

  /** The formatted article as blocks, one per "\n\n"-separated paragraph. */
  function RenderArticle(formatted: string): (blocks: seq<Block>)
    ensures |blocks| >= 1
    ensures |blocks| == 1 <==> !Contains(formatted, ParagraphBreak)
  {
    var paras := Split(formatted, ParagraphBreak);
    SplitSingleIffAbsent(formatted, ParagraphBreak);
    seq(|paras|, i requires 0 <= i < |paras| => RenderParagraph(paras[i]))
  }

  /**
   * Rendering a paragraph loses nothing: joining its parts with "``" gives it
   * back, a paragraph with code has at least one code part, and exactly the
   * parts at odd positions are code.
   */
  lemma RenderParagraphRoundTrip(para: string)
    ensures BlockText(RenderParagraph(para)) == para
    ensures RenderParagraph(para).CodeParagraph? <==> Contains(para, CodeFence)
    ensures RenderParagraph(para).CodeParagraph? ==>
      var spans := RenderParagraph(para).spans;
      |spans| >= 2 && forall i :: 0 <= i < |spans| ==> (spans[i].CodeSpan? <==> i % 2 == 1)
  {
    if Contains(para, CodeFence) {
      var parts := Split(para, CodeFence);
      var spans := SpansOf(parts);
      SplitSingleIffAbsent(para, CodeFence);
      assert seq(|spans|, i requires 0 <= i < |spans| => SpanText(spans[i])) == parts;
      JoinSplit(para, CodeFence);
    }
  }

  /** Joining the rendered blocks' texts with "\n\n" gives back the formatted article. */
  lemma RenderArticleRoundTrip(formatted: string)
    ensures var blocks := RenderArticle(formatted);
      Join(seq(|blocks|, i requires 0 <= i < |blocks| => BlockText(blocks[i])), ParagraphBreak) == formatted
  {
    var paras := Split(formatted, ParagraphBreak);
    var blocks := RenderArticle(formatted);
    forall i | 0 <= i < |paras| ensures BlockText(blocks[i]) == paras[i] {
      RenderParagraphRoundTrip(paras[i]);
    }
    assert seq(|blocks|, i requires 0 <= i < |blocks| => BlockText(blocks[i])) == paras;
    JoinSplit(formatted, ParagraphBreak);
  }
}
