# YouTube video summarizer: a verified model

The Obsidian plugin this project models turns a YouTube link into a note. It works in four steps:

1. It extracts the video identifier from the link.
2. It downloads the video's watch page and finds the first caption track there.
3. It downloads that track and scans its `<text>` elements into transcript segments.
4. It joins the segments into one text and cuts the words into windows of at most `maxTokenSize` words.
   Each window goes to OpenAI or to an Ollama server for key points, and the note is the video's
   metadata followed by those key points.

The settings tab edits a settings record that is merged over the defaults, and a command checks that
record before it opens the summary dialog.

The modules follow the source files:

- `Strings` (`strings.dfy`): the JavaScript string operations the code relies on. These are `split`,
  `join`, `includes`/`indexOf`, `replace` with a string pattern (first occurrence only) and `trim`.
- `Settings` (`settings.dfy`): the constants, the model table and the default record of `settings.ts`.
- `YoutubeRegex` (`youtube_regex.dfy`): the two regular expressions of `src/YoutubeTranscript.ts`.
  Each is a declarative predicate of what a match is, plus an executable matcher proved to find the
  match JavaScript's leftmost, backtracking search finds.
- `TranscriptErrors` and `YoutubeTranscript` (`youtube_transcript.dfy`): the error messages,
  `retrieveVideoId` and `fetchTranscript`. The network is a function from an address to the response
  text, and `JSON.parse` with its property lookups is a function from text to the captions value.
- `ChunkWindows` and `TranscriptSummarizer` (`transcript_summarizer.dfy`): the chunk loop of
  `getSummaryFromUrl` as an imperative method proved against a window specification, the prompt and
  the provider dispatch.
- `OllamaClient` (`ollama_client.dfy`): the model-list fold of `getModels` as a loop, and the
  request `process` sends.
- `Plugin` (`plugin.dfy`): `main.ts`, as a class whose `settings` field the setting handlers update.

## Model

| member | source | states |
|---|---|---|
| Strings.JoinSplitOn | src/TranscriptSummarizer.ts:20-23 | joining the pieces of `split(sep)` with `sep` gives back the text, for every text and non-empty separator |
| Strings.SplitOn | src/TranscriptSummarizer.ts:23 | `split` yields at least one piece, and exactly one when the separator does not occur |
| Strings.ReplaceFirstAfterClean | src/Ollama/OllamaClient.ts:35 | `replace` with a string pattern removes exactly the first occurrence and keeps the text around it |
| Strings.Trim | main.ts:188 | `trim` returns the slice of the text that starts and ends with a non-white-space character, and everything outside that slice is white space |
| Strings.TrimIdempotent | main.ts:188 | trimming a trimmed text changes nothing |
| Settings.TokenSizeOf | settings.ts:26-42 | every selectable OpenAI model has an entry in the token table, and its size is positive |
| Settings.ModelTableMatchesChoices | settings.ts:9-42 | the dropdown list and the token table name the same fifteen distinct models, all with positive sizes |
| Settings.DefaultConstants | settings.ts:43-50 | the derived defaults: the first provider, the first model and its size of 4096 |
| Settings.DefaultSettingsFacts | settings.ts:87-99 | the default record starts with the Ollama token size 4098 under the OpenAI provider, an empty key and the placeholder Ollama model |
| YoutubeRegex.MatchFromPreferred | src/YoutubeTranscript.ts:3-4 | an attempt at one start position returns the capture of the first alternative in pattern order that can capture there; inside the nested-path and query alternatives the greedy `.+`/`.*` makes the last possible identifier win |
| YoutubeRegex.PreferredUnique | src/YoutubeTranscript.ts:3-4 | at a given start position there is only one capture the engine can settle on |
| YoutubeRegex.FirstMatchUnique | src/YoutubeTranscript.ts:3-4 | the match `match` reports (the leftmost start, with the capture settled on there) is unique |
| YoutubeRegex.MatchYoutubeId | src/YoutubeTranscript.ts:3-4 | the matcher finds an identifier exactly when the pattern matches somewhere; the identifier is eleven allowed characters and is the capture of the match `match` reports, and of no other |
| YoutubeRegex.VideoEmbedFormUnique | src/YoutubeTranscript.ts:4 | the `v/`, `e/` and `embed/` alternatives fix where the identifier starts |
| YoutubeRegex.MatchTextElement | src/YoutubeTranscript.ts:5-6 | a match at the start of a text is a complete `<text start dur>` element whose captures contain no quote or `<` |
| YoutubeRegex.MatchTextElementOf | src/YoutubeTranscript.ts:5-6 | a well-formed element at the start of a text is matched whole, with its text as the third capture |
| YoutubeRegex.ScanTexts | src/YoutubeTranscript.ts:84-91 | the texts found by the global scan never contain `<` |
| YoutubeRegex.ScanCaptionDocument | src/YoutubeTranscript.ts:84-91 | scanning a caption document (a header ending with `>`, the elements, then a trailer, where neither header nor trailer holds `<text start="`) gives back the elements' texts, verbatim and in order |
| YoutubeRegex.ScanRenderedCaptions | src/YoutubeTranscript.ts:84-91 | scanning a caption document built from elements gives back their texts, in order |
| TranscriptErrors.Message | src/YoutubeTranscript.ts:7-11 | every error message is the `[YoutubeTranscript] 🚨 ` prefix followed by the error's detail |
| TranscriptErrors.MessageInjective | src/YoutubeTranscript.ts:12-33 | different errors, including different video arguments, have different messages |
| TranscriptErrors.MessageNamesArgument | src/YoutubeTranscript.ts:19-33 | the per-video messages end with the argument in parentheses |
| YoutubeTranscript.RetrieveVideoId | src/YoutubeTranscript.ts:97-108 | an eleven-character argument is returned unchanged; otherwise the result is the capture of the first match (leftmost start, first alternative in pattern order), and the error is the missing-identifier error exactly when nothing matches |
| YoutubeTranscript.RetrieveVideoIdIdempotent | src/YoutubeTranscript.ts:97-100 | extracting from an extracted identifier gives it back |
| YoutubeTranscript.ShortUrlRoundTrip | src/YoutubeTranscript.ts:3-4 | a `https://youtu.be/` link yields the identifier it carries |
| YoutubeTranscript.WatchUrlRoundTrip | src/YoutubeTranscript.ts:44-46 | a `https://www.youtube.com/watch?v=` link yields the identifier it carries |
| YoutubeTranscript.ShortLinkFirst | src/YoutubeTranscript.ts:101-103 | a `youtu.be/` link at the start of the argument yields its identifier whatever follows, a second link included |
| YoutubeTranscript.NestedPathBeforeVideoPath | src/YoutubeTranscript.ts:3-4 | in `youtube.com/v/<a>/<b>` the `v/` alternative matches with `a`, yet the nested-path alternative comes first and yields `b` |
| YoutubeTranscript.Segments | src/YoutubeTranscript.ts:85-91 | one segment per scanned text, carrying it, in order |
| YoutubeTranscript.CaptionsSection | src/YoutubeTranscript.ts:48-63 | the section is the stretch of the page right after the first `"captions":`; no `"captions":` starts inside it, it contains neither marker, and it ends at the end of the page or where `"captions":` or `,"videoDetails` starts |
| YoutubeTranscript.CaptionsSectionOf | src/YoutubeTranscript.ts:48-63 | for a page made of a head without `"captions":`, the marker, a block with neither marker, then `,"videoDetails` and anything, the section is exactly that block |
| YoutubeTranscript.CaptionsJsonText | src/YoutubeTranscript.ts:61-65 | a section without a line feed is handed on unchanged; otherwise exactly its first line feed is removed and the text on both sides kept |
| YoutubeTranscript.CaptionsJsonTextOf | src/YoutubeTranscript.ts:48-65 | for a page whose captions block is `before`, a line feed and `after`, with no line feed in `before`, `JSON.parse` receives `before` followed by `after` |
| YoutubeTranscript.CaptionTrackUrl | src/YoutubeTranscript.ts:48-78 | each failure of the watch page, as an if-and-only-if on the page and the parsed captions: captcha, unavailable, disabled, no tracks, empty track list; otherwise the first track's address |
| YoutubeTranscript.FetchTranscript | src/YoutubeTranscript.ts:41-92 | the missing-identifier error exactly when extraction fails; every failure of the watch page reaches the caller unchanged; an empty track body is the not-available error for the argument; per-video errors name the argument; a success needs a non-empty track body and is the scan of it, with no `<` in any text |
| YoutubeTranscript.FetchBody | src/YoutubeTranscript.ts:79-91 | with a track address and a non-empty body the result is the scan of that body |
| YoutubeTranscript.FetchRenderedCaptions | src/YoutubeTranscript.ts:41-92 | a video served a rendered caption document yields exactly the texts of its elements |
| ChunkWindows.WindowsFrom | src/TranscriptSummarizer.ts:29-35 | the loop's windows start at the start index, follow one another without gaps, are at most `maxTokenSize` wide (all but the last exactly), and the last ends at or after the last index |
| ChunkWindows.NonPositiveSizeNeverEnds | src/TranscriptSummarizer.ts:29-35 | with a size of zero or less and two words or more the start index never moves past zero, so the loop never ends |
| ChunkWindows.CoveredEndOfWindows | src/TranscriptSummarizer.ts:29-35 | there are no windows exactly when there is at most one word; otherwise the last window ends at the whole length if the size (at least two) divides it, and one word short of it otherwise |
| ChunkWindows.ChunkTexts | src/TranscriptSummarizer.ts:34 | one chunk per window, the window's words joined by spaces |
| ChunkWindows.ChunksCover | src/TranscriptSummarizer.ts:24-40 | the chunks joined by spaces are the words up to the covered end joined by spaces |
| ChunkWindows.ChunksRoundTrip | src/TranscriptSummarizer.ts:20-40 | when a size of at least two divides the number of words, the chunks joined back give the transcript |
| ChunkWindows.LastWordDropped | src/TranscriptSummarizer.ts:29-33 | in every other case with a positive size the chunks miss the last word |
| ChunkWindows.LastWordDroppedExample | src/TranscriptSummarizer.ts:29-33 | the words `a b c` with size 2 give the single chunk `a b` |
| ChunkWindows.FullWindowsFrom | src/TranscriptSummarizer.ts:29-35 | the corrected windows start at the start index, follow one another, are at most the size wide and end at the last word |
| ChunkWindows.FullChunksRoundTrip | src/TranscriptSummarizer.ts:20-40 | with the corrected windows the chunks joined back give the transcript for every positive size |
| TranscriptSummarizer.OpenAIRequest | src/TranscriptSummarizer.ts:47-51 | the OpenAI request is the fixed prompt, the text introduction, then the chunk unchanged |
| TranscriptSummarizer.OpenAIRequestInjective | src/TranscriptSummarizer.ts:50 | different chunks give different requests |
| TranscriptSummarizer.KeyPoints | src/TranscriptSummarizer.ts:47-58 | the provider `OpenAI` sends the combined request to OpenAI; any other provider sends the prompt and the chunk to Ollama |
| TranscriptSummarizer.TranscriptWords | src/TranscriptSummarizer.ts:20-23 | the words joined by spaces give back the transcript text |
| TranscriptSummarizer.KeyPointsOf | src/TranscriptSummarizer.ts:37-42 | one key-point answer per chunk, in chunk order |
| TranscriptSummarizer.SummaryNote | src/TranscriptSummarizer.ts:43 | with no key points the note is the metadata and a line feed |
| TranscriptSummarizer.CollectKeyPoints | src/TranscriptSummarizer.ts:24-42 | the loop asks for the key points of exactly the specified chunks, in order |
| TranscriptSummarizer.KeyPointsFromChunks | src/TranscriptSummarizer.ts:29-40 | round by round from any start index, the loop asks for the key points of the chunks of the windows from there on |
| TranscriptSummarizer.GetSummaryFromUrl | src/TranscriptSummarizer.ts:14-45 | the method computes the specified summary: the fetch error, or the metadata and the key points of the chunks |
| TranscriptSummarizer.ShortTranscriptNoRequests | src/TranscriptSummarizer.ts:29 | a transcript of at most one word sends no request and yields only the metadata |
| OllamaClient.NormaliseName | src/Ollama/OllamaClient.ts:35 | a name without `:latest` is kept; otherwise exactly one tag's length is removed |
| OllamaClient.NormaliseLatestTag | src/Ollama/OllamaClient.ts:35 | the first `:latest` is cut out and the rest of the name kept |
| OllamaClient.NormaliseOnlyFirstTag | src/Ollama/OllamaClient.ts:35 | `m:latest:latest` lists as `m:latest` |
| OllamaClient.GetModels | src/Ollama/OllamaClient.ts:26-39 | a missing or empty list is a rejection; otherwise the keys are exactly the normalised names and each maps to itself |
| OllamaClient.ListedNameOrigin | src/Ollama/OllamaClient.ts:34-38 | every listed name comes from a model of the answer |
| OllamaClient.TaggedAndUntaggedCollapse | src/Ollama/OllamaClient.ts:34-38 | a model with and without `:latest` collapses into one entry |
| OllamaClient.TagsUrl | src/Ollama/OllamaClient.ts:27-29 | the tags address is the server address followed by `/api/tags` |
| OllamaClient.GenerateRequestOf | src/Ollama/OllamaClient.ts:4-24 | a non-streaming POST to `/api/generate` of the server, carrying the text and the model |
| OllamaClient.GenerateRequestInjective | src/Ollama/OllamaClient.ts:9-20 | the request determines the text, the address and the model |
| Plugin.MergeLaws | main.ts:68-82 | the empty patch changes nothing, a patch is idempotent, two merges are one merge of the combined patch, a full patch replaces the record |
| Plugin.MergeKeepsAbsentFields | main.ts:79-82 | each of the eleven fields a patch does not name keeps its value |
| Plugin.PreCheck | main.ts:36-58 | the missing-key notice exactly for OpenAI without a key, the missing-model notice exactly for Ollama without a model, the dialog otherwise |
| Plugin.UnknownProviderOpens | main.ts:38-57 | a provider other than the two known ones always opens the dialog |
| Plugin.ClampSummarySize | main.ts:257-269 | the stored size lies between 3 and 20, equals the input inside that range and the nearest bound outside it |
| Plugin.ClampLaws | main.ts:260-265 | clamping is idempotent and monotone |
| Plugin.ResetSettings | main.ts:307-316 | reset restores the summary size, template, date format, OpenAI model and its token size, and keeps everything else, the key included |
| Plugin.ResetLaws | main.ts:307-316 | reset is idempotent and never changes what the command does |
| Plugin.ResetDiffersFromDefaults | main.ts:307-316 | resetting the default record does not give it back: its token size becomes 4096 |
| Plugin.StoredNonPositiveSizeStalls | main.ts:240-246 | the token size field stores any number, and a stored size of zero or less stalls the chunk loop |
| Plugin.SummarizerPlugin.constructor | main.ts:68-72 | the settings are the stored data laid over the defaults |
| Plugin.SummarizerPlugin.UpdateSettings | main.ts:79-82 | the settings become the old settings merged with the patch |
| Plugin.SummarizerPlugin.OnOpenAIKeyChange | main.ts:145-149 | only the key changes |
| Plugin.SummarizerPlugin.OnOpenAIModelChange | main.ts:167-176 | the model and then its token size from the table change, and the size is positive |
| Plugin.SummarizerPlugin.OnOllamaUrlChange | main.ts:187-191 | only the address changes, to the trimmed input, which neither starts nor ends with white space |
| Plugin.SummarizerPlugin.OnOllamaModelChange | main.ts:208-212 | only the Ollama model changes |
| Plugin.SummarizerPlugin.OnMaxTokenSizeChange | main.ts:240-246 | a non-number changes nothing; a number is stored as the token size |
| Plugin.SummarizerPlugin.OnSummarySizeChange | main.ts:257-269 | a non-number changes nothing; a number is stored clamped, which keeps the size within 3 to 20 |
| Plugin.SummarizerPlugin.OnTemplateFormatChange | main.ts:280-284 | only the template changes |
| Plugin.SummarizerPlugin.OnDateFormatChange | main.ts:293-295 | only the date format changes |
| Plugin.SummarizerPlugin.ResetDefaults | main.ts:307-316 | the settings become the reset record, and the command outcome is unchanged |

## Left out

- Network requests (`requestUrl`) are parameters: a function from an address to the response text, and for Ollama a function from the request to the `response` field. Transport failures and rejected promises are not modelled.
- `JSON.parse` and the `playerCaptionsTracklistRenderer`/`captionTracks` lookups are one parameter returning the captions value. The parameter gives `captionTracks` either as a list of tracks or as absent. `EmptyTrackList` stands for the runtime error of reading `[0].baseUrl` from a `captionTracks` value that is `null` (the error comes from `[0]`) or whose `[0]` is `undefined` or `null` (an empty list, a number, an empty string). A value whose `[0]` exists but is not a track (a non-empty string, whose first character has no `baseUrl`, so the request goes to the address `undefined`; an object keyed `"0"`; a list whose first entry is a primitive) is not modelled: the parameter cannot return one.
- `parseFloat` of the `start` and `dur` captures: segments carry only their text, which is all the summarizer reads.
- `Promise.all` and the concurrency of the key-point requests: the model asks for them in order, and answers are returned in that order.
- The video metadata parser (`YoutubeMetadataParser`) is not part of this model: its note content is a parameter.
- The provider dropdown handler (main.ts:111-132) is not modelled. It tests the provider read when the tab was shown, not the new one. When that provider is `OpenAI`, it looks the new provider's name up in the model table and stores the result, which is `undefined` because a provider name is no model key. Otherwise it keeps the current token size, or stores 4098 when that size is `null` or `undefined`. So switching from Ollama to OpenAI keeps the Ollama size. The settings record holds a number, so it cannot represent the `undefined` size.
- The Ollama call in `getKeyPointsFromTranscript` passes the prompt and the chunk to a three-argument static `process`, without a base address or model. The model keeps that call site as an uninterpreted two-argument backend and does not connect it to `OllamaClient.GenerateRequestOf`.
- Persistence (`loadData`, `saveData`, `saveSettings`), plugin reload after a reset, notices, modals and all user-interface building are left out.
- `loadSettings` writes into `DEFAULT_SETTINGS` itself (it is the first argument of `Object.assign`). The model merges into a copy, so the aliasing of the default record is not captured.
- A stored property whose value is `undefined` counts as present for `Object.assign`. The model's patches have only present or absent fields.
- Strings are sequences of Unicode scalar values; JavaScript lengths count UTF-16 code units, so `videoId.length === 11` differs for characters outside the Basic Multilingual Plane.
- The regex `i` flag is modelled as ASCII case folding of the literal parts; Unicode case folding is not.
- `getModels`: a model named `__proto__` and the key order of the resulting object are not modelled; the result is a map.
- `OllamaClient.Process` has no contract of its own: it applies the server to the request `GenerateRequestOf` describes.
- `temperature` and `ollamaModels` are carried in the settings record but no modelled code reads them.
- `Plugin.SummarizerPlugin.CommandOutcomeNow` has no contract: it is `PreCheck` applied to the current settings.
- `TranscriptSummarizer.GetSummaryFromUrl` requires the chunk loop to terminate (a positive token size or at most one word); the source loops forever otherwise, which `ChunkWindows.NonPositiveSizeNeverEnds` states.

## Findings

| source | as written | input that shows it | evidently intended | confidence | as-written member | corrected member |
|---|---|---|---|---|---|---|
| src/TranscriptSummarizer.ts:29-33 | the loop runs while `startIndex < words.length - 1` and clamps the window end to `words.length - 1`, so unless the size (at least two) divides the word count the last word is never sent | words `a b c` with `maxTokenSize` 2 give the single chunk `a b` | every word of the transcript is sent in some chunk | not executed | ChunkWindows.LastWordDropped | ChunkWindows.FullChunksRoundTrip |
