# Sunday Thoughts: a verified model of the article site's logic

The site is a Next.js application that lists articles from a database. It tags the newest one "NEW", filters the list by category and scrolls a side list in steps of two. It can also stream a formatted version of an article or a plain-language explanation of a selection from a chat-completion service, and it records access requests and turns text into speech. This project models the logic behind those features in Dafny and proves what that logic promises:

- **Listing helpers.** These are pure functions of the article page (`Listing`):
  - the category filter;
  - the "latest article" reduction and `isNew`;
  - the public storage URL;
  - the 100-word teaser;
  - the side list's scroll window;
  - the paragraph and double-backtick splitter used to render a formatted article.
- **The page's state.** `ArticlePage.Page` is a class whose fields are the page's `useState` values. Its methods are `fetchArticles` once the query has resolved, the filter effect, the category select, `handleScroll` and `handleFormatArticle`. The last reads the relayed completion line by line.
- **The explanation modal.** `ExplanationModal.Modal` has the reset-on-open effect and `fetchExplanation`. That method reads the relayed completion event by event, keeps an accumulator and falls back to a fixed apology.
- **The client-side stream reading spec.** `StreamClient` defines the meaning both readers are proved against:
  - which lines or events count;
  - `[DONE]`;
  - what each payload adds;
  - the `while (!done)` loop over the reads.
- **The server-side relay.** `SseRelay`, `FormatArticleRoute` and `ExplainRoute` cover the two completion routes:
  - the user messages;
  - the `data: <json>` + blank-line framing of section 9.2 ("Server-sent events") of the WHATWG HTML Living Standard;
  - the stream controller, whose `enqueue`, `error` and `close` follow the WHATWG Streams Standard;
  - the response headers.
- **The round trip.** `SseRoundTrip` proves that what a route writes is what both readers gather: the deltas of the completion's parts, in order.
- **Two request handlers.** `RequestAccess` and `Podcast` are pure decision functions. Each maps the request and an abstract service result to a status and a message.

External services are parameters of the model:
- the database query and insert;
- the chat completion, which arrives as its parts plus an optional failure;
- the text-to-speech call;
- `JSON.parse` followed by `choices[0].delta.content`, as `parse: string -> Delta`;
- `JSON.stringify`, as `stringify: P -> string`.

The round trip assumes only this of `stringify`: it gives text that starts with `{`, ends with `}` and holds no raw line break (`SseRoundTrip.CompactObject`).

## Model

| member | source | states |
|---|---|---|
| JsText.IndexOf | app/page.tsx:237 | the result is the first position where the pattern occurs; there is none exactly when the pattern does not occur |
| JsText.StartsWith | app/page.tsx:236 | no contract of its own; JsText.StartsWithAppend states what it means |
| JsText.StartsWithAppend | app/page.tsx:236 | a prefix followed by any text starts with that prefix, and what follows the prefix is that text |
| JsText.Contains | app/page.tsx:122 | a string only includes texts no longer than itself; JsText.ContainsIffOccurs gives the full meaning |
| JsText.ContainsIffOccurs | app/page.tsx:122 | `includes` holds exactly when the searched text occurs at some position |
| JsText.OccursThenContains | app/page.tsx:265 | an occurrence at any position makes `includes` hold |
| JsText.ReplaceFirst | app/page.tsx:237 | without an occurrence the string is unchanged; otherwise exactly the first occurrence is replaced and everything around it kept |
| JsText.ReplaceFirstAtStart | app/page.tsx:237 | on a line that starts with the pattern, `replace` removes exactly that leading occurrence |
| JsText.Split | app/page.tsx:235 | `split` always yields at least one piece |
| JsText.JoinSplit | app/page.tsx:267 | joining the pieces of a split with the same separator gives the string back |
| JsText.SplitJoin | app/components/ExplanationModal.tsx:48 | splitting a join of pieces that hold no separator character gives the pieces back |
| JsText.SplitWithoutSeparator | app/components/ExplanationModal.tsx:48 | a string without the separator's first character splits into itself alone |
| JsText.SplitAfterPiece | app/components/ExplanationModal.tsx:48 | a separator-free piece followed by the separator splits off as the first piece |
| JsText.SplitPiecesFree | app/page.tsx:235 | no piece of a split on one character contains that character |
| JsText.SplitSingleIffAbsent | app/page.tsx:265-267 | a split yields a single piece exactly when the separator does not occur |
| JsText.AbsentWhenShorter | app/page.tsx:265 | a string shorter than the searched text does not include it |
| JsText.Join | app/page.tsx:165 | no contract of its own: `join`; JsText.JoinSplit and JsText.JoinAt state what it builds |
| JsText.JoinAt | app/page.tsx:165 | a join is the join of the first k pieces, the separator, and the join of the rest |
| JsText.TrimStart | app/page.tsx:237 | the result is a suffix; everything cut is white space; it does not start with white space |
| JsText.TrimEnd | app/page.tsx:237 | the result is a prefix; everything cut is white space; it does not end with white space |
| JsText.Trim | app/components/ExplanationModal.tsx:50 | the trimmed payload neither starts nor ends with white space |
| JsText.TrimIsInfix | app/components/ExplanationModal.tsx:50 | the trim is an infix of the input with only white space cut from both ends |
| JsText.TrimUnpadded | app/components/ExplanationModal.tsx:50 | a string that neither starts nor ends with white space is its own trim |
| JsText.ToLower | app/page.tsx:122 | same length, each character lower-cased in place |
| Listing.KeepMatching | app/page.tsx:121-123 | the filter keeps the list's order, keeps only matching articles, and keeps every matching article as often as it occurs |
| Listing.MatchesCategory | app/page.tsx:122 | an article matches exactly when `indexOf` finds the lower-cased selection in its lower-cased category; an empty selection matches every article |
| Listing.CategoryFilter | app/page.tsx:116-127 | the selection "all" gives the whole list; any other selection gives the filtered list |
| Listing.Later | app/page.tsx:105 | the result is one of the two articles, dated no earlier than either; unless the current one is strictly later, the latest so far is kept |
| Listing.FoldLatest | app/page.tsx:104-106 | no contract of its own; Listing.FoldLatestFinds states what the reduction finds |
| Listing.LatestArticle | app/page.tsx:103-108 | on a non-empty list the result is a member of the list dated no earlier than any article in it |
| Listing.FoldLatestFinds | app/page.tsx:104-106 | the reduction from the first newest article so far ends at an article of the list that is the first newest of all |
| Listing.LatestArticleIsFirstNewest | app/page.tsx:103-108 | on a non-empty list the reduction returns a member whose date is at least every other, and, because the comparison is strict, the first such member |
| Listing.IsNew | app/page.tsx:142-145 | an article is NEW exactly when its id equals the stored latest id |
| Listing.PublicUrl | app/page.tsx:147-150 | the URL is the storage prefix, the bucket and '/', then the path with one leading '/' removed if it had one |
| Listing.PublicUrlRemovesOneSlash | app/page.tsx:148 | one leading '/' is dropped and a second one is kept |
| Listing.Take | app/page.tsx:165 | `slice(0, n)` is the prefix of length min(n, length) |
| Listing.First100Words | app/page.tsx:164-166 | the teaser ends in "..." and what comes before it is a prefix of the text |
| Listing.TeaserHeadIsPrefix | app/page.tsx:165 | the first 100 space-separated pieces, joined by spaces, are a prefix of the text |
| Listing.ShortTeaserIsWholeText | app/page.tsx:164-166 | a text of at most 100 space-separated pieces becomes the text followed by "..." |
| Listing.LongTeaserIsPrefix | app/page.tsx:164-166 | a longer text is cut just before a space; the kept prefix's pieces are exactly the first 100 pieces |
| Listing.Scroll | app/page.tsx:156-162 | going up, start is at least 1 and end at least 5; going down, start is at most length - 4 and end at most length; a window four wide stays four wide |
| Listing.JsSlice | app/page.tsx:370 | within bounds, `slice(start, end)` is the subsequence from start to end |
| Listing.ScrollDownRepeatsFeatured | app/page.tsx:156-162 | with two articles, scrolling down from the initial window gives (-2, 2), which shows the featured first article again |
| Listing.ScrollClamped | app/page.tsx:156-162 | the corrected step never starts before 1 or ends before 5, and keeps the window four wide |
| Listing.ClampedSideListSkipsFeatured | app/page.tsx:370 | a window starting at 1 or later shows a slice that leaves out the featured first article |
| Listing.ScrollClampedAgreesOnLongLists | app/page.tsx:156-162 | on lists of five or more articles, the corrected step and the written step agree |
| Listing.RenderParagraph | app/page.tsx:265-282 | a paragraph is rendered plain exactly when it holds no "``", and then shows its text unchanged; in a code paragraph the text spans are exactly the even positions |
| Listing.RenderArticle | app/page.tsx:263 | a formatted article gives at least one block, and exactly one when it holds no blank line "\n\n" |
| Listing.RenderParagraphRoundTrip | app/page.tsx:265-277 | joining a rendered paragraph's pieces with "``" gives the paragraph back; it is rendered with code exactly when it contains "``"; odd pieces are code and even pieces are text |
| Listing.RenderArticleRoundTrip | app/page.tsx:263 | joining the rendered paragraphs with blank lines gives the formatted article back |
| StreamClient.Separator | app/page.tsx:235 | each reader cuts on a non-empty run of line breaks |
| StreamClient.StripDataPrefix | app/page.tsx:237 | no contract of its own: each reader's removal of "data: "; StreamClient.StripDataPrefixKeepsRest states what it removes |
| StreamClient.StripDataPrefixKeepsRest | app/components/ExplanationModal.tsx:50 | both readers remove exactly the leading "data: " and keep the rest of the line |
| StreamClient.EventOf | app/components/ExplanationModal.tsx:49-52 | a segment is skipped exactly when it does not start with "data: "; otherwise it is "[DONE]" exactly when its trimmed payload is, and else a data event carrying that trimmed payload |
| StreamClient.Contribution | app/components/ExplanationModal.tsx:54-60 | a segment adds text only when it is a data event whose payload parses to that text; a data event whose payload parses to text adds exactly that text |
| StreamClient.ChunkText | app/components/ExplanationModal.tsx:48-66 | no contract of its own: the text of a chunk's segments; StreamClient.SegmentsTextAppend and StreamClient.SpliceInert state its laws, and ExplanationModal.Modal.ReadEvents and ArticlePage.Page.ReadLines are proved to compute it |
| StreamClient.ChunkDone | app/components/ExplanationModal.tsx:48-66 | no contract of its own: whether a chunk holds "[DONE]"; StreamClient.SegmentsDoneAppend states its law, and both callbacks are proved to report it |
| StreamClient.ReadStream | app/components/ExplanationModal.tsx:43-67 | no contract of its own: the outcome of the `while (!done)` loop; StreamClient.ReadFailsIff, StreamClient.DoneStopsReading and the ReadStep lemmas state its meaning |
| StreamClient.ReadFailsIff | app/components/ExplanationModal.tsx:43-67 | the loop fails exactly when some read fails after reads that were all chunks without "[DONE]" |
| StreamClient.DeltaText | app/components/ExplanationModal.tsx:55-60 | a payload adds its delta text when that is text, and nothing otherwise |
| StreamClient.SkippedEvent | app/components/ExplanationModal.tsx:49 | a segment not starting with "data: " is skipped and adds nothing |
| StreamClient.DoneEvent | app/components/ExplanationModal.tsx:50-52 | a segment whose trimmed payload is "[DONE]" ends the stream and adds nothing |
| StreamClient.DataEvent | app/components/ExplanationModal.tsx:50-60 | any other "data: " segment is a data event whose text is its payload's delta |
| StreamClient.SegmentTextStep | app/components/ExplanationModal.tsx:48-66 | visiting the next segment moves its contribution from what is still to come into the accumulator |
| StreamClient.SegmentDoneStep | app/components/ExplanationModal.tsx:48-66 | "[DONE]" lies in the segment just visited or in a later one |
| StreamClient.ReadersClassifyAlike | app/page.tsx:236-237 | the page's first-occurrence `replace` and the modal's anchored pattern classify every segment alike |
| StreamClient.SegmentsTextAppend | app/components/ExplanationModal.tsx:48-66 | the text of two runs of segments is the text of the first followed by that of the second |
| StreamClient.SegmentsDoneAppend | app/components/ExplanationModal.tsx:48-66 | two runs of segments hold "[DONE]" exactly when either one does |
| StreamClient.SpliceInert | app/components/ExplanationModal.tsx:48-66 | removing a segment that adds nothing and is not "[DONE]" changes neither the text nor the stop |
| StreamClient.NonDataSegmentIgnored | app/components/ExplanationModal.tsx:49 | a segment not starting with "data: " is ignored: the chunk reads as if it were absent |
| StreamClient.UnparseableSegmentSkipped | app/components/ExplanationModal.tsx:54-63 | a payload that fails to parse adds nothing, and the later segments are still read |
| StreamClient.DoneStopsReading | app/components/ExplanationModal.tsx:43-52 | after a chunk holding "[DONE]", no later read changes the outcome |
| StreamClient.ReadStepFails | app/components/ExplanationModal.tsx:44 | a failed read ends the loop as failed |
| StreamClient.ReadStepDone | app/components/ExplanationModal.tsx:51-52 | a chunk holding "[DONE]" ends the loop with that chunk's text |
| StreamClient.ReadStepMore | app/components/ExplanationModal.tsx:43-67 | any other chunk's text is appended, and the rest of the body decides what follows |
| StreamClient.EmptyChunkAddsNothing | app/components/ExplanationModal.tsx:44-48 | the empty chunk decoded after the last read adds nothing and does not stop |
| ExplanationModal.ReadEvent | app/components/ExplanationModal.tsx:49-64 | the callback appends exactly the event's contribution and flags exactly the "[DONE]" events |
| ExplanationModal.ExplanationAfter | app/components/ExplanationModal.tsx:26-74 | a rejected fetch, a non-ok response or a failed read gives the apology; an ok response whose reads all succeed shows the streamed text, or keeps the previous explanation when no delta arrived |
| ExplanationModal.Modal.constructor | app/components/ExplanationModal.tsx:14-15 | the explanation starts empty and not loading |
| ExplanationModal.Modal.OpenEffect | app/components/ExplanationModal.tsx:18-24 | the fetch starts exactly when the modal is open with a non-empty selection, after the explanation is cleared and loading is set |
| ExplanationModal.Modal.ReadEvents | app/components/ExplanationModal.tsx:48-66 | the accumulator grows by exactly the chunk's text; "[DONE]" is reported exactly when the chunk holds it; the shown explanation is the accumulator once a delta has arrived |
| ExplanationModal.Modal.ReadBody | app/components/ExplanationModal.tsx:43-67 | the loop fails exactly when the stream spec says so; otherwise the shown text is the in-order concatenation of every delta |
| ExplanationModal.Modal.FetchExplanation | app/components/ExplanationModal.tsx:26-74 | the explanation becomes the apology on a failed request or read, and the streamed text otherwise; loading ends false in every case |
| ArticlePage.FormatOutcome | app/page.tsx:218-250 | a rejected fetch throws with no text; a non-ok response gives no text; an ok response gives what the line reader gathers |
| ArticlePage.ReadLine | app/page.tsx:236-247 | the callback appends exactly the line's contribution and flags exactly the "[DONE]" lines |
| ArticlePage.Page.constructor | app/page.tsx:29-41 | the initial state: empty lists, category "all", no latest id, window (1, 5), nothing formatted |
| ArticlePage.Page.IsNewArticle | app/page.tsx:142-145 | NEW exactly when the id equals the page's stored latest id |
| ArticlePage.Page.FetchArticles | app/page.tsx:94-109 | an error changes nothing; rows replace both lists; a non-empty result stores the latest article's id; nothing else changes |
| ArticlePage.Page.FilterEffect | app/page.tsx:116-127 | the filtered list becomes the category filter of the articles |
| ArticlePage.Page.SelectCategory | app/page.tsx:298 | the selection becomes the chosen value |
| ArticlePage.Page.HandleScroll | app/page.tsx:156-162 | the window takes the written scroll step and stays four wide; on five or more articles that is the corrected step |
| ArticlePage.Page.ReadLines | app/page.tsx:235-248 | the shown article grows by exactly the chunk's text; "[DONE]" is reported exactly when a line holds it |
| ArticlePage.Page.ReadBody | app/page.tsx:231-249 | the loop throws exactly when a read fails, and the shown article grows by the whole stream's text |
| ArticlePage.Page.HandleFormatArticle | app/page.tsx:214-251 | the modal is shown; the article is the formatted outcome; the notice stays on exactly when the handler throws |
| SseRelay.TemplateText | app/api/explain/route.ts:16 | the interpolated `text` is the posted string, or "undefined" when the field is absent |
| SseRelay.Frame | app/api/format-article/route.ts:28 | an event is "data: ", the JSON text, and the blank line "\n\n" |
| SseRelay.Unframe | app/api/format-article/route.ts:28 | the inverse of Frame: a text is read back exactly when it has the shape of an event |
| SseRelay.UnframeFrame | app/api/format-article/route.ts:28 | reading an event back gives its JSON text |
| SseRelay.FrameUnframe | app/api/format-article/route.ts:28 | every text that reads back is the event of what it reads back to |
| SseRelay.Frames | app/api/format-article/route.ts:26-29 | one event per JSON text, in order |
| SseRelay.Stringified | app/api/format-article/route.ts:27 | one `JSON.stringify` per part, in order |
| SseRelay.ConcatAppend | app/api/format-article/route.ts:28 | the text of two runs of chunks is the text of the first followed by the second |
| SseRelay.Controller.constructor | app/api/format-article/route.ts:22-23 | a new stream is readable with nothing enqueued |
| SseRelay.Controller.Enqueue | app/api/format-article/route.ts:28 | a readable stream appends the chunk; any other state throws and changes nothing |
| SseRelay.Controller.Error | app/api/format-article/route.ts:31 | a readable stream becomes errored with the reason; otherwise nothing changes |
| SseRelay.Controller.Close | app/api/format-article/route.ts:33 | a readable stream becomes closed; any other state throws and changes nothing |
| SseRelay.Start | app/api/format-article/route.ts:23-35 | the enqueued chunks are the events of the parts in arrival order; a complete iteration closes the stream; a failed one errors it, and the `close` in `finally` then throws |
| FormatArticleRoute.UserMessage | app/api/format-article/route.ts:16 | the message is the fixed instruction, a blank line, then the write-up unchanged |
| FormatArticleRoute.UserMessageInjective | app/api/format-article/route.ts:16 | different write-ups give different messages |
| FormatArticleRoute.Post | app/api/format-article/route.ts:6-43 | the request names the model with streaming on; the headers are `text/event-stream` and `no-cache`; the stream holds the events of the parts and is closed or errored as `Start` says |
| ExplainRoute.UserMessage | app/api/explain/route.ts:16 | the message is the fixed instruction, a blank line, then the text in double quotes |
| ExplainRoute.UserMessageInjective | app/api/explain/route.ts:16 | different texts give different messages |
| ExplainRoute.Post | app/api/explain/route.ts:6-43 | as for the formatting route: request, headers, and the events of the parts, closed or errored |
| RequestAccess.Handle | pages/api/request-access.ts:9-32 | 405 exactly for a method other than POST; for a POST with a missing or empty email, 400 "Email is required" and no insert; otherwise the insert is made with that email and an error gives 400 with its message, success 200 "Request recorded" with the rows; 200 exactly then |
| RequestAccess.MethodCheckedFirst | pages/api/request-access.ts:10-18 | a request that is not a POST gets the same answer whatever its body and whatever the table would do |
| RequestAccess.InsertDecidesReply | pages/api/request-access.ts:21-31 | for a POST with an email, two tables give the same answer exactly when their insert results agree |
| Podcast.VoiceId | app/api/podcast/route.ts:10 | the configured voice id if set and non-empty, the fixed default otherwise |
| Podcast.Handle | app/api/podcast/route.ts:3-40 | with no key: 500 "Missing Eleven Labs credentials" and no call, else a call with the voice URL and the key; a failed call gives "Failed to generate audio" with exactly the upstream status; success gives the upstream bytes as `audio/mpeg` |
| Podcast.VoiceInUrl | app/api/podcast/route.ts:17-18 | the voice id can be read back from the service URL |
| Podcast.AudioOnlyOnSuccess | app/api/podcast/route.ts:29-39 | audio is answered exactly when a key is set and the service call succeeds |
| SseRoundTrip.FramesAreBlankLineJoin | app/api/format-article/route.ts:26-29 | the written events are the data lines joined by blank lines, with a final blank line |
| SseRoundTrip.FramesAreLineJoin | app/api/format-article/route.ts:26-29 | the written events are the data lines, each followed by an empty line, joined by line breaks |
| SseRoundTrip.SplitFramesOnBlankLines | app/components/ExplanationModal.tsx:48-50 | for line-break-free JSON, splitting on blank lines gives one data line per part, in order, then an empty piece; removing "data: " gives each JSON text back |
| SseRoundTrip.SplitFramesOnNewlines | app/page.tsx:235 | splitting on line breaks gives each data line followed by an empty line |
| SseRoundTrip.DataLinePayload | app/components/ExplanationModal.tsx:50 | the trimmed payload of a data line is its JSON object |
| SseRoundTrip.StripDataLine | app/page.tsx:237 | either reader's removal of "data: " gives the JSON text back |
| SseRoundTrip.ObjectIsNotDone | app/components/ExplanationModal.tsx:51 | an object's JSON is never "[DONE]" |
| SseRoundTrip.DataLineMeaning | app/components/ExplanationModal.tsx:49-60 | a data line of an object is a data event adding that object's delta |
| SseRoundTrip.EmptyLineMeaning | app/page.tsx:236 | an empty line is skipped and adds nothing |
| SseRoundTrip.BlankLineSegments | app/components/ExplanationModal.tsx:48-66 | the modal's events add the deltas of the parts in order and hold no "[DONE]" |
| SseRoundTrip.LineSegments | app/page.tsx:235-248 | the page's lines add the deltas of the parts in order and hold no "[DONE]" |
| SseRoundTrip.ChunkOfFrames | app/components/ExplanationModal.tsx:46-66 | a chunk of whole events adds exactly its parts' deltas and does not stop the loop |
| SseRoundTrip.StreamOfFrames | app/components/ExplanationModal.tsx:43-67 | a body whose every read delivers whole events gathers all deltas in order and does not fail |
| SseRoundTrip.RelayRoundTrip | app/api/format-article/route.ts:26-29 | with one read per enqueued event, either reader gathers exactly the in-order deltas of the completion's parts |
| SseRoundTrip.RelayedExplanation | app/components/ExplanationModal.tsx:26-74 | the modal then shows the deltas, or keeps what it showed when no part carried one |
| SseRoundTrip.RelayedFormatting | app/page.tsx:214-251 | the page then shows the deltas and clears its notice |
| SseRoundTrip.TrailingLineBreakLosesNextEvent | app/components/ExplanationModal.tsx:48-50 | a JSON text ending in a line break moves that break into the next event, which then no longer starts with "data: " and is skipped |

## Left out

- UI rendering: JSX, images, buttons, the modal's close button, and the click-outside and Escape listeners (app/components/ExplanationModal.tsx:76-106). These are UI event plumbing. The rendering model stops at the blocks a formatted article is cut into.
- Browser I/O: `localStorage`, `document.referrer`, `router.push`, `mailto` navigation, the email form and its handlers. These are navigation and browser state.
- `handleSortChange` and the sort select. They only re-run the query with another order; the rows are taken in whatever order the query returns.
- `formatDate` and `new Date` parsing. These depend on locale and time zone; dates are integer time stamps, compared as numbers.
- `TextDecoder` and `TextEncoder`. Chunks are strings and events are strings. An event split across two reads is not recovered by either reader. The model reads each chunk on its own and claims nothing about such splits.
- `JSON.parse`, `JSON.stringify` and `req.json()`. The first two are abstract functions. A request body that is not JSON, which makes a route throw before it streams, is not modelled. Neither is a `text` field that holds JSON `null`, a number or another non-string value: `${text}` (app/api/explain/route.ts:16, app/api/format-article/route.ts:16) would interpolate it as "null" or its printed form, while the model's field is a string or absent.
- The completion service itself, including a `create` call that rejects before streaming, and the system prompt with its locale date. The request model records the model name, the user message and the streaming flag.
- Stream cancellation by the reader, and back-pressure.
- The podcast route's unused `id` field and the service's error text, which is only logged.
- Logging (`console.log`, `console.error`).
- SseRelay.Controller.Error: the WHATWG Streams Standard also resets the queue of an errored stream. The model keeps `enqueued` as the log of every chunk handed to the stream, not as what a reader can still read.
- JsText.ToLower: only ASCII capitals are lower-cased. Unicode case mapping is not modelled.
- JsText.Split: only non-empty separators are modelled. Every separator the application uses is non-empty.
- Podcast.Handle: `await fetch` (app/api/podcast/route.ts:17-27), `await elevenRes.text()` on the error path (app/api/podcast/route.ts:30) and `arrayBuffer()` (app/api/podcast/route.ts:36) may reject. The handler then throws and sends neither answer. The model's service result has no case for that.
- ExplanationModal.Modal.FetchExplanation: the effect (app/components/ExplanationModal.tsx:18-24) can start a second fetch while one is still streaming. Both then write `explanation`, and the first to finish clears `isLoading`. The contract describes one run at a time.
- The formatting reader of the article page (app/article/[id]/page.tsx:88-125). It splits on "\n\n" like the explanation modal; that file is not part of this model. `handleFormatArticle` in app/page.tsx, which this model covers, is never called from that page's JSX (app/page.tsx:253-434).
- ExplanationModal.Modal.OpenEffect: it starts the fetch but leaves the fetch out; `FetchExplanation` models it separately. Unmounting while a fetch runs is not modelled.

## Findings

| source | as written | input that shows it | evidently intended | confidence | as-written member | corrected member |
|---|---|---|---|---|---|---|
| app/page.tsx:156-162 | scrolling down sets start to `min(start + 2, length - 4)`, which is below 1 on a list of fewer than five articles (four articles give (0, 4), three give (-1, 3)); a start of 0 shows the featured first article in the side list, and a negative start makes `slice` count from the end | two filtered articles, initial window (1, 5), "down": the window becomes (-2, 2) and the side list shows both articles, including the featured first one | the side list never starts before index 1 (start at least 1, end at least 5) | medium, not executed | Listing.ScrollDownRepeatsFeatured (on Listing.Scroll) | Listing.ScrollClamped, with Listing.ClampedSideListSkipsFeatured and Listing.ScrollClampedAgreesOnLongLists |

`ArticlePage.Page.HandleScroll` models the handler as written, so the page model matches the source. Its contract also states that on lists of five or more articles, from a window that starts inside the side list, the written step is the corrected one.

The round trip depends on one property of `JSON.stringify`: its output holds no raw line break. `JSON.stringify` called without a `space` argument, as both routes call it (app/api/format-article/route.ts:27), emits no raw line break. Leaving out only "\n\n" from the payloads would not be enough: `SseRoundTrip.TrailingLineBreakLosesNextEvent` shows that a payload ending in "\n" makes the modal skip the next event.
