# TrendSpotter core, modelled in Dafny

TrendSpotter is a browser page that asks a hosted generative model for trending
news about a topic, grounded with web search, and renders what comes back.
This project models the logic of three of its files:

- **The query service** (`services/geminiService.ts`). It calls the model once.
  It picks the string to hand to `JSON.parse` out of the reply text. The first
  choice is a json-labelled fenced block. Next comes any fenced block. Last
  comes the whole text with every triple backtick removed. A parse failure
  becomes an empty story list. The citation list is built from the grounding
  chunks and collapsed by uri through a JavaScript `Map`. A failed remote call
  is rethrown.
- **The page** (`App.tsx`). It holds a topic and a search state
  `{isLoading, error, data}`. The mount effect and each submitted search run a
  fetch, and each fetch settles the state on success or failure. Blank input is
  ignored. Rendering is chosen by a few predicates over the state.
- **A story card** (`components/NewsCard.tsx`). It shows the body cut to 120
  characters plus `"..."` unless the card is expanded. A button toggles the
  expansion.

Modules: `Wrappers` (Option, Result), `Types` (the records of `types.ts`),
`Fences` (the two regular expressions and the backtick removal), `Sources`
(citation collection and deduplication), `GeminiService` (extraction and the
service call), `App` (the page as a class `Page`), `NewsCard` (truncation and a
class `Card`).

Two parts of the outside world are parameters:
- `JSON.parse` is a function `parse: string -> Option<seq<NewsItem>>`. `None`
  stands for a throw.
- The remote model call is a function `generate: string -> Result<ModelResponse, ProviderError>`.
  It maps the topic to a reply or to the error the call threw.

The regular expressions are stated by their meaning under JavaScript's
backtracking matcher. That meaning is the leftmost start position, then the
shortest content (`Fences.IsLeftmostLazy`). The code is modelled as two
substring scans: the first opening token, then the first closing token at or
after its end. `Fences.FirstFencedIsRegexMatch` proves the two agree.

Behaviour of the code that is easy to misread:
- The generic fence pattern does not exclude a language tag. So a one-line
  block like "```json [1]```" hands `"json [1]"` to the parser
  (`Fences.TaggedOneLineBlock`).
- A json-labelled block with empty content is still a match. The `||` then
  keeps it, so the generic pattern is never tried. The empty capture is falsy,
  so the raw-text branch runs (`Fences.EmptyJsonFenceUsesRawText`).
- A source title defaults to `"Source Link"` when it is empty as well as when it
  is missing.
- Deduplication keeps each uri at the place of its first occurrence, with the
  entry of its last occurrence.
- Overlapping fetches have no cancellation and no policy that discards stale
  results.

## Model

| member | source | states |
|---|---|---|
| `Fences.IndexOf` | services/geminiService.ts:47 | the result is the first position at or after `from` where the token occurs; `None` only when it occurs nowhere from there |
| `Fences.FirstFenced` | services/geminiService.ts:47 | the first opening token, then the first closing token at or after its end, and the text between; nothing when either is missing; the capture and both tokens fit in the text |
| `Fences.FirstFencedIsRegexMatch` | services/geminiService.ts:47 | the opening-then-closing scan finds nothing exactly when the pattern has no match, and otherwise yields the capture of the leftmost, shortest match |
| `Fences.LeftmostLazyUnique` | services/geminiService.ts:47 | the match the regular expression reports is unique |
| `Fences.JsonFenceMatch` | services/geminiService.ts:47 | `null` exactly when the json-labelled pattern matches nowhere; otherwise the content of its leftmost, shortest match |
| `Fences.GenericFenceMatch` | services/geminiService.ts:47 | `null` exactly when the generic pattern matches nowhere; otherwise the content of its leftmost, shortest match |
| `Fences.FenceMatch` | services/geminiService.ts:47 | `null` exactly when neither pattern matches; any json-labelled match, even an empty one, is taken, and with none the generic pattern's result is |
| `Fences.ParserInput` | services/geminiService.ts:47-60 | the parser receives a non-empty capture or a string with no triple backtick; it is never longer than the reply text |
| `Fences.JsonFenceWins` | services/geminiService.ts:47-52 | with a non-empty json-labelled match, the parser gets exactly its content, whatever generic fences the text also holds |
| `Fences.GenericFenceFallback` | services/geminiService.ts:47-52 | when the json-labelled pattern matches nowhere, a non-empty generic match's content is what the parser gets |
| `Fences.RawTextFallback` | services/geminiService.ts:56-60 | with neither pattern matching, the parser gets the text with every triple backtick removed, and that string holds no triple backtick |
| `Fences.EmptyJsonFenceUsesRawText` | services/geminiService.ts:47-60 | an empty json-labelled block sends the parser the stripped text; the generic pattern is not consulted |
| `Fences.EmptyGenericFenceUsesRawText` | services/geminiService.ts:47-60 | with no json-labelled match, an empty generic block sends the parser the stripped text |
| `Fences.BacktickFreeTextVerbatim` | services/geminiService.ts:47-60 | a text with no backtick reaches the parser unchanged |
| `Fences.GenericFenceKeepsLanguageTag` | services/geminiService.ts:47 | a one-line generic block with newline-free, backtick-free content hands the parser that content, language tag included |
| `Fences.TaggedOneLineBlock` | services/geminiService.ts:47 | "```json [1]```" makes the parser receive "json [1]" |
| `Fences.StripFences` | services/geminiService.ts:59 | every triple backtick is removed, scanning left to right and resuming after each removal; the result is never longer than the input |
| `Fences.StripFencesRemovesAll` | services/geminiService.ts:59 | after the global replacement no triple backtick remains, even where removals bring backticks together |
| `Fences.StripFencesKeepsNonTicks` | services/geminiService.ts:59 | only backticks are removed: every other character of the text survives, in order |
| `Fences.StripFencesSplit` | services/geminiService.ts:59 | a character other than a backtick is kept, and the text on either side of it is stripped independently |
| `Fences.StripFencesTickRun` | services/geminiService.ts:59 | a run of n backticks keeps n mod 3 of them, so a lone backtick survives; with the split lemma this fixes the result on every text |
| `Fences.StripFencesKeepsFenceFree` | services/geminiService.ts:59 | a text without a triple backtick is returned unchanged |
| `Fences.StripFencesIdempotent` | services/geminiService.ts:59 | replacing a second time changes nothing |
| `Sources.SourceOf` | services/geminiService.ts:73-76 | the uri is taken verbatim; the title is the chunk's title, or "Source Link" when that is missing or empty; it is never empty |
| `Sources.SourcesOf` | services/geminiService.ts:70-79 | for each chunk in order, one source when the chunk has a web page and none otherwise; its shape is stated by the two lemmas below |
| `Sources.CollectedSources` | services/geminiService.ts:67-79 | no sources when the reply has no grounding chunks, otherwise the sources of its chunks |
| `Sources.CollectSources` | services/geminiService.ts:67-79 | the loop's list equals the chunk-by-chunk specification, and is empty when there are no chunks |
| `Sources.SourcesOfOnePerWebChunk` | services/geminiService.ts:70-79 | there is one source per chunk with a web page, and chunks without one are skipped: the chunk at k gives the source at the number of web chunks before k |
| `Sources.WebCountOrdersChunks` | services/geminiService.ts:71-78 | a later web chunk's source comes after an earlier one's: chunk order is kept |
| `Sources.SourcesOfTitlesNonEmpty` | services/geminiService.ts:74 | no collected source has an empty title |
| `Sources.MapSet` | services/geminiService.ts:82 | `Map.prototype.set` keyed by uri: a present uri keeps its position and takes the new entry, a new uri is appended |
| `Sources.Dedup` | services/geminiService.ts:82 | every source is set into the map in input order, and the map's values are read in insertion order; the lemmas below state the result |
| `Sources.DedupSameUris` | services/geminiService.ts:82 | the deduplicated list holds exactly the uris of the input |
| `Sources.DedupDistinct` | services/geminiService.ts:82 | the deduplicated uris are pairwise distinct |
| `Sources.DedupNoLonger` | services/geminiService.ts:82 | deduplication never lengthens the list |
| `Sources.DedupFirstOccurrenceOrder` | services/geminiService.ts:82 | entries are ordered by where their uri first occurs in the input |
| `Sources.DedupLastWins` | services/geminiService.ts:82 | each entry is the last input source with its uri, so the last title wins |
| `Sources.DedupKeepsDistinct` | services/geminiService.ts:82 | a list whose uris are already distinct comes back unchanged |
| `GeminiService.ResponseText` | services/geminiService.ts:45 | the reply text, or the empty string when it is missing |
| `GeminiService.GroundingChunksOf` | services/geminiService.ts:68 | the chunks of the first candidate's grounding metadata; absent when there is no candidate, no metadata or no chunk list |
| `GeminiService.ParsedItems` | services/geminiService.ts:49-64 | what the parser makes of the chosen input, or no stories when it throws |
| `GeminiService.ExtractNews` | services/geminiService.ts:44-87 | the parsed stories together with the collected sources, collapsed by uri |
| `GeminiService.ExtractItems` | services/geminiService.ts:44-64 | the branching try/catch code yields the parse of the chosen string, and an empty list when that parse fails |
| `GeminiService.FetchTrendingNews` | services/geminiService.ts:7-92 | a failed call is rethrown with no partial response; otherwise the result is the extracted response, with pairwise distinct source uris, no more sources than web chunks |
| `GeminiService.MissingTextParsesEmpty` | services/geminiService.ts:45-63 | a missing reply text sends "" to the parser, so a failing parse of "" gives no stories |
| `GeminiService.JsonFenceItems` | services/geminiService.ts:49-55 | with a json-labelled block the stories are the parse of its content; a failed parse gives none, with no retry on the raw text |
| `GeminiService.WellFencedReplyItems` | services/geminiService.ts:44-55 | a reply that opens with a json-labelled block, as the prompt asks, has its content parsed whatever follows it |
| `App.Settled` | App.tsx:19-26 | a settled state is not loading and is coherent; it has data exactly on success and an error exactly on failure |
| `App.TrimStart` | App.tsx:37 | removes exactly the longest prefix of ECMAScript white space |
| `App.TrimEnd` | App.tsx:37 | removes exactly the longest suffix of ECMAScript white space |
| `App.Trim` | App.tsx:37 | white space removed at both ends |
| `App.TrimEmptyIffBlank` | App.tsx:37 | the trimmed input is empty exactly when every character is white space |
| `App.ShowsLoading` | App.tsx:106 | the spinner shows exactly while loading |
| `App.ShowsError` | App.tsx:121 | the banner shows exactly when the error is a non-empty string |
| `App.ShowsContent` | App.tsx:136 | the stories and sources show exactly when not loading and data is present |
| `App.ShowsNoResults` | App.tsx:147 | the notice shows exactly when the content shows with zero stories |
| `App.SubmitDisabled` | App.tsx:97 | the submit button is disabled exactly while loading |
| `App.SubmitLabel` | App.tsx:97-100 | the button reads "Digging..." exactly while it is disabled, and "Explore" otherwise |
| `App.ErrorExcludesContent` | App.tsx:121-151 | in a coherent state the error banner never shows beside the content or the no-results notice |
| `App.EmptySuccessShowsNotice` | App.tsx:136-151 | a success with zero stories shows the no-results notice, no banner and no spinner |
| `App.FailureShowsBanner` | App.tsx:21-26 | a failure shows the fixed message and hides the content |
| `App.Page.constructor` | App.tsx:8-14 | the page starts with topic "Trending Technology", not loading, no error, no data |
| `App.Page.StartFetch` | App.tsx:17 | loading is set and the error cleared; the data and topic are kept; the spinner shows and submit is disabled |
| `App.Page.FetchSucceeded` | App.tsx:19-20 | the state becomes exactly not loading, no error, the result as data |
| `App.Page.FetchFailed` | App.tsx:21-26 | the state becomes exactly not loading, the fixed message, no data |
| `App.Page.HandleFetch` | App.tsx:16-28 | the state settles on the service's outcome for the given topic; the topic and the invariant are kept |
| `App.Page.Mount` | App.tsx:30-33 | one fetch is issued for the current topic |
| `App.Page.HandleSearch` | App.tsx:35-40 | blank input changes neither topic nor state; otherwise the untrimmed input becomes the topic and is fetched as typed |
| `App.MountedPage` | App.tsx:8-33 | a freshly mounted page has fetched the default topic and settled on its outcome |
| `NewsCard.ShouldTruncate` | components/NewsCard.tsx:10-12 | a body is truncatable exactly when it is longer than 120 characters |
| `NewsCard.DisplayText` | components/NewsCard.tsx:10-15 | the body is shown whole unless the card is collapsed and the body is over 120 characters; then the first 120 characters are followed by "..." |
| `NewsCard.ToggleLabel` | components/NewsCard.tsx:42-48 | the button exists exactly when the body is over 120 characters; it reads "Read Less" when expanded and "Read More" when collapsed |
| `NewsCard.PreviewIsStable` | components/NewsCard.tsx:13-15 | truncating a collapsed preview again leaves it as it is |
| `NewsCard.PreviewKeepsPrefix` | components/NewsCard.tsx:15 | the collapsed text starts with the body's first 120 characters, or the whole body when shorter |
| `NewsCard.Card.constructor` | components/NewsCard.tsx:9 | a card starts collapsed |
| `NewsCard.Card.Shown` | components/NewsCard.tsx:13-15 | the text the card shows is the display text of its body for its current expansion |
| `NewsCard.Card.Toggle` | components/NewsCard.tsx:44 | a click flips the expansion |
| `NewsCard.ToggleTwice` | components/NewsCard.tsx:44 | two clicks restore the expansion and the text shown |

## Left out

- The model client, the model name and the tool configuration (services/geminiService.ts:1, 5, 9, 35-42) are a remote call. They become the `generate` parameter.
- The remote call is not deterministic, but `generate` is a function, so the model answers the same topic the same way every time. No contract compares two calls, so none relies on this.
- Reading the API key from the process environment (services/geminiService.ts:5) is environment input. It is not modelled.
- The prompt wording (services/geminiService.ts:13-33) is not modelled. `generate` receives the topic itself, and the template only embeds it verbatim.
- The default topic of `fetchTrendingNews` (services/geminiService.ts:7) is not modelled. The page always passes a topic.
- The internals of `JSON.parse` are a parameter. The code checks nothing about the shape of a successful parse, so a JSON value that is not a list of stories is not representable here.
- `console.error` logging (services/geminiService.ts:54, 62, 90) is I/O. It is not modelled.
- The `response.text` getter and the SDK's optional `uri` on a web chunk are not modelled. The text is an optional string, and every web chunk is taken to have a uri.
- The await between starting and settling a fetch is not modelled as such. `Page.HandleFetch` runs a fetch to completion. The intermediate loading state is `Page.StartFetch`'s postcondition. Overlapping fetches, where the last to resolve wins, are concurrency and are left out.
- React hook mechanics, the controlled input field (App.tsx:9, 88-94), `preventDefault`, JSX, CSS and animation are presentation. `HandleSearch` receives the input field's value as a parameter.
- components/SourcesList.tsx is presentational and depends on the browser's URL parser. It is not part of this model.
- Strings are sequences of Unicode scalar values, while JavaScript counts UTF-16 code units. `.length` and `slice(0, 120)` differ for characters outside the Basic Multilingual Plane, where JavaScript can also split a surrogate pair.
