# NewsLens-AI aggregation pipeline, modelled in Dafny

This project models the news aggregation and normalisation pipeline of NewsLens-AI.

- **Feed adapters.** Three adapters turn feeds into articles:
  - BBC: the first `limit` RSS entries, stripped, with no filtering.
  - CNN: a junk-filtered walk over the RSS entries that fetches and extracts each kept article page, stopping once `limit` articles are kept.
  - YouTube: per channel, a forward search through the video feed that skips every video whose transcript fetch failed.
- **Aggregator.** `fetch_and_process_data` concatenates the adapter outputs (BBC, then CNN, then YouTube), relabels the BBC and CNN sources, and runs the normaliser.
- **Normaliser.** `preprocess_data` is a single pass. It strips titles and content, drops every record whose stripped title was already seen, and cuts content longer than 3000 characters to 3000 plus `"..."`.
- **Summariser loop.** In `app.py`, each record is sent to a language model and its answer is cleaned of chatty openings. Only records whose call succeeded are kept.

All network, parser and model calls are parameters of the model:
- the page fetch is `string -> Option<string>`;
- the HTML parser is `string -> Document`, where a `Document` is already parsed into elements;
- the video feed is `string -> seq<VideoEntry>`;
- the transcript service is `string -> Result<seq<string>, string>`;
- the language-model call is `(string, string) -> Result<string, string>`.

The loops of the source are methods. Each is proved equal to a function that states its result: a recursion on the input with its first or last element removed, a slice of such a function, or a sequence comprehension. The properties of the source are proved as lemmas about those functions.

Modules, one per source file plus shared helpers:
- `Preprocessing`: `Preprocessing/preprocessing.py`.
- `CnnNewsAgent`: `News_Agents/cnn_news_agent.py`.
- `BbcNewsAgent`: `News_Agents/bbc_news_agent.py`.
- `YoutubeNewsAgent`: `News_Agents/youtube_news_agent.py`.
- `App`: the summarising part of `app.py`.
- `Text`: Python's `strip`, `lower`, `startswith`, `in`, `join` and `split` on strings.
- `Html`: a parsed page, CSS selection and the paragraph join.
- `News`: the `Article` dataclass, an RSS entry, and the unified dictionary.
- `Wrappers`: `Option` and `Result`.

Three behaviours of the code are worth stating plainly:
- `fetch_and_process_data` does not isolate the adapters: there is no `try` around them (Preprocessing/preprocessing.py:17-41), so an adapter exception ends the run. Adapter exceptions are not modelled (see "Left out").
- `preprocess_data` does not drop records with an empty title (Preprocessing/preprocessing.py:56-66): the first record with an empty title is kept, and later ones are dropped as duplicates of it.
- `preprocess_data` can fail: it reads `item["source"]` (Preprocessing/preprocessing.py:73), which raises `KeyError` for a first-seen record without a source. `Normalize` returns `Err(KeyError("source"))` in that case. `FetchAndProcessData` shows the error cannot happen for the records the three adapters produce.

## Model

| member | source | states |
|---|---|---|
| Text.Strip | Preprocessing/preprocessing.py:56 | Python's `strip()`: the result has no whitespace at either end and is never longer than the input |
| Text.StripIsInfix | Preprocessing/preprocessing.py:56 | the stripped string is a contiguous piece of the input, and everything before and after that piece is whitespace |
| Text.StripIdempotent | Preprocessing/preprocessing.py:56 | stripping twice is stripping once |
| Text.StripIsSuffix | app.py:98 | a string without trailing whitespace strips to a suffix of itself |
| Text.TrimStartChar | app.py:103 | `lstrip(":")`: the result is a suffix of the input that does not start with `:`, and everything removed was `:` |
| Text.Split | News_Agents/cnn_news_agent.py:55 | splitting always yields at least one part |
| Text.SplitNoSeparator | News_Agents/cnn_news_agent.py:55 | a string without the separator splits into itself alone |
| Text.SplitAtSeparator | News_Agents/cnn_news_agent.py:55 | splitting at the first separator gives the text before it followed by the parts of the rest |
| Text.SplitJoin | News_Agents/cnn_news_agent.py:55 | joining parts that contain no separator and splitting again gives back the parts |
| Html.Select | News_Agents/cnn_news_agent.py:51-53 | `select`/`find_all`: an element is selected iff it is in the page and matches; the selection is empty iff nothing matches; never more than the page holds |
| Html.SelectInOrder | News_Agents/cnn_news_agent.py:51-53 | the selection keeps document order: an increasing list of positions picks it out of the page, and every matching position is on that list |
| Html.ShiftedCovers | News_Agents/bbc_news_agent.py:54 | (proof helper for `SelectInOrder`) the positions picked in the tail of a page, moved up by one, cover every matching element after the first |
| Html.PicksConsTake | News_Agents/bbc_news_agent.py:54 | (proof helper for `SelectInOrder`) a matching first element is picked at position 0, before the tail's picks |
| Html.PicksConsSkip | News_Agents/bbc_news_agent.py:54 | (proof helper for `SelectInOrder`) a first element that does not match is not picked; the tail's picks move up by one |
| Html.JoinParagraphsLines | News_Agents/bbc_news_agent.py:54-55 | the newline-joined body splits back into the paragraph texts, one line per paragraph, when no paragraph text holds a line break |
| CnnNewsAgent.ParseCnnLines | News_Agents/cnn_news_agent.py:44-55 | no HTML (`None` or `""`) gives `""`; otherwise the chosen paragraphs are the component-tagged ones when there are any, and all `<p>` elements when there are none; no chosen paragraph gives `""`, and when no chosen paragraph text holds a line break, the lines of the body are the chosen texts in order |
| CnnNewsAgent.ParseCnn | News_Agents/cnn_news_agent.py:43-55 | a non-empty body needs a successful, non-empty fetch and at least one chosen paragraph |
| CnnNewsAgent.LowerCaseVideoMentioned | News_Agents/cnn_news_agent.py:75-76 | a title that already holds "video" in lower case mentions video after lower-casing |
| CnnNewsAgent.IsJunk | News_Agents/cnn_news_agent.py:72-78 | a title holding "video" makes the entry junk, whatever its link |
| CnnNewsAgent.CnnCandidates | News_Agents/cnn_news_agent.py:68-89 | every kept article has source "CNN", a stripped title and link, and is not junk: neither field is empty, the lower-cased title has no "video", and the link has no "/videos" |
| CnnNewsAgent.CnnCandidatesStep | News_Agents/cnn_news_agent.py:68-89 | (loop proof helper) one more entry adds exactly its article, unless it is junk |
| CnnNewsAgent.CnnCandidatesPrefix | News_Agents/cnn_news_agent.py:68-92 | the articles kept from a prefix of the feed are a prefix of those kept from the whole feed, so feed order is kept |
| CnnNewsAgent.CnnNewsReached | News_Agents/cnn_news_agent.py:91-92 | (loop proof helper) once the articles kept from a prefix of the feed fill the quota, they are the whole answer |
| CnnNewsAgent.CnnCandidatesFromFeed | News_Agents/cnn_news_agent.py:69-89 | every kept article is built from some feed entry, and its content is the extraction of its own link |
| CnnNewsAgent.CnnCandidatesComplete | News_Agents/cnn_news_agent.py:68-89 | every entry that is not junk is kept: the filter drops exactly the junk |
| CnnNewsAgent.CnnCandidatesIgnoreFetch | News_Agents/cnn_news_agent.py:80-89 | which entries are kept, and their titles and links, do not depend on the page fetches: a failed extraction does not drop an article |
| CnnNewsAgent.CnnQuota | News_Agents/cnn_news_agent.py:91-92 | the loop stops after `limit` articles when `limit >= 1`, and after exactly one article otherwise, since the test follows the append |
| CnnNewsAgent.CnnNews | News_Agents/cnn_news_agent.py:64-94 | the result is a prefix of the kept articles; for `limit >= 1` its length is `min(limit, kept)`; for `limit <= 0` it has exactly one article when any is kept, and none otherwise |
| CnnNewsAgent.ExtractEntry | News_Agents/cnn_news_agent.py:69-80 | the loop body skips an entry iff it is junk, and otherwise yields its article with the extracted content |
| CnnNewsAgent.GetCnnNews | News_Agents/cnn_news_agent.py:64-94 | the loop with its `continue` filters and its `break` after the append returns exactly `CnnNews` |
| CnnNewsAgent.StormTitleMentionsVideo | News_Agents/cnn_news_agent.py:75-76 | the title "Breaking Video: Storm Update" holds "video" once lower-cased |
| CnnNewsAgent.VideoTitleDropped | News_Agents/cnn_news_agent.py:75-76 | an entry titled "Breaking Video: Storm Update" is dropped whatever its link |
| CnnNewsAgent.VideoLinkDropped | News_Agents/cnn_news_agent.py:77-78 | an entry linking to ".../videos/123" is dropped whatever its title |
| BbcNewsAgent.ParseBbcLines | News_Agents/bbc_news_agent.py:44-55 | no HTML or no `<article>` gives `""`; an article without `<p>` gives `""`; when no paragraph text holds a line break, the lines of the body are the texts of the article's `<p>` elements in order |
| BbcNewsAgent.ParseBbc | News_Agents/bbc_news_agent.py:43-55 | a non-empty body needs a successful, non-empty fetch, an `<article>`, and at least one `<p>` in it |
| BbcNewsAgent.BbcNews | News_Agents/bbc_news_agent.py:64-82 | never more articles than entries, nor than a non-negative limit; every article has source "BBC" and stripped title, url and content |
| BbcNewsAgent.SliceEnd | News_Agents/bbc_news_agent.py:68 | where Python's slice `entries[:limit]` ends, negative limits included; never past the end |
| BbcNewsAgent.BbcNewsShape | News_Agents/bbc_news_agent.py:68-80 | for `limit >= 0`, exactly `min(limit, len(entries))` articles, the k-th built from the k-th entry; title, url and content are that entry's stripped title, link and summary, a missing field being `""`; source is "BBC"; nothing is filtered out |
| BbcNewsAgent.GetBbcNews | News_Agents/bbc_news_agent.py:64-82 | the loop over the slice returns exactly `BbcNews` |
| YoutubeNewsAgent.FetchLatestVideoId | News_Agents/youtube_news_agent.py:13-29 | `None` iff the channel's feed is empty; otherwise the first (latest) entry |
| YoutubeNewsAgent.GetTranscript | News_Agents/youtube_news_agent.py:31-45 | the snippet texts joined with a space on success; on failure `"[Error fetching transcript: <message>]"`, which is an error text |
| YoutubeNewsAgent.Accepted | News_Agents/youtube_news_agent.py:95-112 | never more records than entries; every record has source `"YouTube - " + name` and a transcript that is not an error text |
| YoutubeNewsAgent.AcceptedFromFeed | News_Agents/youtube_news_agent.py:99-111 | every record is the record of one feed entry: that entry's title and link, and that entry's transcript as content |
| YoutubeNewsAgent.AcceptedStep | News_Agents/youtube_news_agent.py:103-112 | (loop proof helper) one more entry adds its record iff its transcript is not an error text |
| YoutubeNewsAgent.AcceptedPrefix | News_Agents/youtube_news_agent.py:95-112 | the records accepted from a prefix of the feed are a prefix of those from the whole feed |
| YoutubeNewsAgent.ChannelItems | News_Agents/youtube_news_agent.py:94-112 | a channel contributes a prefix of its accepted records: none when the limit is `<= 0`, otherwise `min(limit, accepted)` |
| YoutubeNewsAgent.ChannelItemsReached | News_Agents/youtube_news_agent.py:95-97 | stopping at the limit and running out of entries both give the channel's contribution |
| YoutubeNewsAgent.TranscriptFallback | News_Agents/youtube_news_agent.py:95-112 | with limit 1, when entries before k all fail and entry k succeeds, the channel's single record is entry k's |
| YoutubeNewsAgent.NoneAccepted | News_Agents/youtube_news_agent.py:105-112 | a feed whose every transcript fails contributes nothing, and this is not an error |
| YoutubeNewsAgent.TranscriptsOf | News_Agents/youtube_news_agent.py:83-114 | with a limit `<= 0`, no channel contributes anything |
| YoutubeNewsAgent.TranscriptsOfBound | News_Agents/youtube_news_agent.py:87-112 | with a positive limit, each channel contributes at most `limit` records, so the total is at most channels times limit |
| YoutubeNewsAgent.Transcripts | News_Agents/youtube_news_agent.py:83-114 | over the `CHANNELS` table: with a positive limit, at most that many records per channel |
| YoutubeNewsAgent.TranscriptsOfStep | News_Agents/youtube_news_agent.py:87-112 | (loop proof helper) one more channel appends that channel's contribution |
| YoutubeNewsAgent.TranscriptsOfSnoc | News_Agents/youtube_news_agent.py:87-112 | (loop proof helper) appending a channel to the table appends its contribution |
| YoutubeNewsAgent.TranscriptsOfAppend | News_Agents/youtube_news_agent.py:87-112 | the records of a channel table are those of its first part followed by those of the rest, so channel order is kept |
| YoutubeNewsAgent.TranscriptsSourced | News_Agents/youtube_news_agent.py:105-111 | every record carries the source label of one of the channels and a transcript that is not an error text |
| YoutubeNewsAgent.SearchChannel | News_Agents/youtube_news_agent.py:94-112 | the inner loop, with its early `break` on `found_count`, returns exactly the channel's contribution |
| YoutubeNewsAgent.GetTranscripts | News_Agents/youtube_news_agent.py:83-114 | the loop over the channel table, skipping empty feeds, returns exactly `TranscriptsOf` |
| Preprocessing.ContentOf | Preprocessing/preprocessing.py:57-61 | the content has no whitespace at either end; it is `""` when the key is missing or its value empty, and the stripped value otherwise |
| Preprocessing.Truncate | Preprocessing/preprocessing.py:69-70 | at most 3003 characters; content of at most 3000 characters is unchanged; longer content keeps its first 3000 characters and ends in `"..."` |
| Preprocessing.TruncateIdempotent | Preprocessing/preprocessing.py:69-70 | cutting cut content again changes nothing |
| Preprocessing.TruncateTrimmed | Preprocessing/preprocessing.py:69-70 | cutting stripped content keeps it free of surrounding whitespace |
| Preprocessing.TitlesOf | Preprocessing/preprocessing.py:51-66 | the seen set never holds more titles than items were looked at |
| Preprocessing.Clean | Preprocessing/preprocessing.py:72-76 | the record copies `source` unchanged; its title is the stripped title and its content the stripped, cut content; both are free of surrounding whitespace, and the content has at most 3003 characters |
| Preprocessing.TitlesOfStep | Preprocessing/preprocessing.py:64-66 | (loop proof helper) looking at one more item adds its stripped title to the seen set |
| Preprocessing.TitlesOfHas | Preprocessing/preprocessing.py:66 | every looked-at title is in the seen set |
| Preprocessing.TitlesOfWitness | Preprocessing/preprocessing.py:66 | every title in the seen set belongs to a looked-at item |
| Preprocessing.TitlesOfExcludes | Preprocessing/preprocessing.py:64-66 | a title no looked-at item has is not in the seen set |
| Preprocessing.Normalize | Preprocessing/preprocessing.py:50-79 | the output is never longer than the input; the only error is `KeyError("source")` |
| Preprocessing.NormalizeStep | Preprocessing/preprocessing.py:54-77 | (loop proof helper) one more item is dropped when its title was seen, raises when it is new and has no source, and is otherwise appended cleaned |
| Preprocessing.NormalizeErrPersists | Preprocessing/preprocessing.py:73 | once the pass has raised, later items do not matter |
| Preprocessing.FirstOf | Preprocessing/preprocessing.py:63-66 | every item has a first occurrence of its title at or before it |
| Preprocessing.IsFirstPrefix | Preprocessing/preprocessing.py:63-66 | whether an item is the first with its title does not depend on later items |
| Preprocessing.FirstOccurrencesKept | Preprocessing/preprocessing.py:64-65 | a duplicate last item leaves the output as it was |
| Preprocessing.IncreasingExtended | Preprocessing/preprocessing.py:66-77 | (proof helper) appending a position beyond every listed one keeps the list increasing |
| Preprocessing.FirstRecordsKept | Preprocessing/preprocessing.py:66-77 | (proof helper) the records picked before the last item stay picked for the whole list |
| Preprocessing.FirstOccurrencesExtended | Preprocessing/preprocessing.py:66-77 | a first-seen last item extends the output with its cleaned record |
| Preprocessing.NormalizeFirstOccurrences | Preprocessing/preprocessing.py:54-77 | the output is, in input order, exactly the cleaned first occurrences of each title: an increasing index list picks them, and every first occurrence is picked |
| Preprocessing.NormalizeDistinct | Preprocessing/preprocessing.py:63-66 | output titles are pairwise distinct |
| Preprocessing.NormalizeFirstWins | Preprocessing/preprocessing.py:56-77 | every input item's stripped title is in the output, on the record cleaned from the first item with that title |
| Preprocessing.HasUnsourcedFirstSplit | Preprocessing/preprocessing.py:73 | an unsourced first occurrence before the last item lies in the list without its last item |
| Preprocessing.HasUnsourcedFirstWiden | Preprocessing/preprocessing.py:73 | an unsourced first occurrence stays one when an item is added |
| Preprocessing.HasUnsourcedFirstStep | Preprocessing/preprocessing.py:73 | an unsourced first occurrence is in the list without its last item, or is the last item |
| Preprocessing.NormalizeErrorIff | Preprocessing/preprocessing.py:54-77 | the pass raises `KeyError` iff some first occurrence of a title lacks a source; duplicates without a source are harmless |
| Preprocessing.NormalizeTotal | Preprocessing/preprocessing.py:73 | a list whose items all have a source never raises |
| Preprocessing.DuplicateAndTruncateExample | Preprocessing/preprocessing.py:54-77 | items titled "A", "A", "B": the second "A" is dropped and the first "A"'s over-long content becomes its first 3000 characters plus `"..."` |
| Preprocessing.CleanIsFixed | Preprocessing/preprocessing.py:56-76 | cleaning a cleaned record again changes nothing |
| Preprocessing.NormalizeFixpoint | Preprocessing/preprocessing.py:50-79 | clean records with distinct titles pass the normaliser unchanged |
| Preprocessing.NormalizeIdempotent | Preprocessing/preprocessing.py:50-79 | normalising the output again returns it unchanged |
| Preprocessing.PreprocessData | Preprocessing/preprocessing.py:50-79 | the loop, with its mutated seen set and `continue`, returns exactly `Normalize`, or the `KeyError` |
| Preprocessing.Relabel | Preprocessing/preprocessing.py:19-36 | one dictionary per article, each carrying the given source label |
| Preprocessing.Unified | Preprocessing/preprocessing.py:14-41 | the unified list holds every article and item, with the YouTube items unchanged at its end |
| Preprocessing.UnifiedLayout | Preprocessing/preprocessing.py:14-41 | the unified list is the BBC articles labelled "BBC", then the CNN articles labelled "CNN", then the YouTube items, each group in emission order, with title, url and content copied |
| Preprocessing.UnifiedNormalizes | Preprocessing/preprocessing.py:41-46 | when every YouTube item has a source, normalising the unified list never raises |
| Preprocessing.BbcWinsTies | Preprocessing/preprocessing.py:19-46 | a title BBC reported stays with source "BBC" even when CNN or YouTube reported it too |
| Preprocessing.AppendArticles | Preprocessing/preprocessing.py:19-25 | the loop appends each article, relabelled, after what was there |
| Preprocessing.FetchAndProcessData | Preprocessing/preprocessing.py:13-48 | the whole run is `Normalize` of three BBC articles, three CNN articles and one transcript per channel, in that order, and it never raises |
| Preprocessing.Processed | Preprocessing/preprocessing.py:13-48 | the run never raises, and yields at most three BBC, three CNN and one record per channel |
| App.StartsWithIgnoreCaseLength | app.py:102 | a case-insensitive prefix match needs the summary to be at least as long as the prefix |
| App.RemovePrefix | app.py:103 | the removal leaves no whitespace at either end |
| App.SuffixTransitive | app.py:101-103 | a suffix of a suffix is a suffix |
| App.RemovePrefixIsSuffix | app.py:103 | the removal keeps a tail of the summary, shorter by at least the prefix |
| App.StripPrefixesSuffix | app.py:101-103 | the prefix loop on a stripped summary gives a stripped tail of it |
| App.StripPrefixes | app.py:100-103 | the loop either leaves the summary as it was or leaves it free of surrounding whitespace |
| App.CleanedSummary | app.py:98-103 | the cleaned summary has no whitespace at either end |
| App.StripPrefixesFirstMatch | app.py:101-103 | the first prefix that matches is removed, and only the later prefixes are tested against the rest |
| App.CleanedSummaryShape | app.py:98-103 | the cleaned summary has no surrounding whitespace and is a suffix of the stripped answer, so never longer |
| App.StripPrefixesNoMatch | app.py:101-103 | a summary no prefix opens passes the loop unchanged |
| App.CleanedSummaryNoMatch | app.py:98-103 | an answer opening with none of the four prefixes, ignoring case, is only stripped |
| App.ExampleSkipsEarlyPrefixes | app.py:100-102 | "Summary: Here is a summary" matches none of the first three prefixes |
| App.ExampleRemovesSummaryColon | app.py:102-103 | it matches "Summary:", whose removal leaves "Here is a summary" |
| App.UncoveredPrefixStays | app.py:98-103 | "Summary: Here is a summary" cleans to "Here is a summary": an earlier prefix uncovered by a later removal stays |
| App.CleanSummary | app.py:98-103 | the strip and the reassigning loop over the prefixes give exactly `CleanedSummary` |
| App.Summaries | app.py:85-119 | never more results than articles |
| App.SummariesStep | app.py:87-119 | (loop proof helper) one more article appends its cleaned summary iff its call succeeds |
| App.SucceededAtSkip | app.py:118-119 | a failed call adds nothing and the loop goes on |
| App.SucceededAtAppend | app.py:92-112 | a successful call adds its article's result |
| App.SummariesSucceeded | app.py:85-119 | the results are, in input order, exactly the articles whose call succeeded; each keeps source and title and holds the cleaned answer as `summary` |
| App.SummariesAllSucceed | app.py:85-119 | when every call succeeds, every article has its result, in order |
| App.SummarizeArticles | app.py:85-119 | the loop with its per-item `try`/`except` returns exactly `Summaries` with the cleaning of lines 98-103 |

## Left out

- Network and feed I/O are parameters of the model: `requests.get`/`fetch_html`, `feedparser.parse`, `YouTubeTranscriptApi.fetch` and `chain.invoke`. A failure of each is a `None` or an `Err` value.
- BeautifulSoup is not modelled: a page is given already parsed, as its elements and the elements of its first `<article>`.
- Python's `strip()` and `lower()` are modelled on ASCII: whitespace is the ASCII set plus `\x1c`–`\x1f`, and lower-casing maps `A`–`Z` only.
- Exceptions that the adapters or feedparser raise are not modelled. This includes an `AttributeError` for a video entry without `yt_videoid`, `title` or `link`, so a video entry always has all three fields. Since `fetch_and_process_data` does not catch them, they would end the run.
- Printing, `print_articles`, `cli`, `YoutubeNewsAgent.run` (which only prints) and the JSON file written at app.py:122-124 are not modelled: they produce output only.
- The language-model setup in app.py (prompt, client, environment variables) and the early return when there are no articles are not modelled.
- MCP/mcp_server.py, FAST_API/api.py, main.py and verify_setup.py are not part of this model. The prefix cleaning they repeat is the one modelled from app.py.
- YoutubeNewsAgent.GetTranscripts takes the channel table as a parameter. `FetchAndProcessData` passes the `CHANNELS` table.
- App.Summaries is stated for any cleaning function. `SummarizeArticles` instantiates it with `CleanedSummary`.
- News.Article: `content` is `Optional[str]` in the source. Both adapters always set it, so it is a plain string here.
- CnnNewsAgent.CnnCandidates: its contract does not state the content. `CnnCandidatesFromFeed` does.
