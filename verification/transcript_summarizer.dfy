/** The word windows the summarizer cuts a transcript into, and where they end. */
module ChunkWindows {
  import opened Strings

  /** The words `lo .. hi - 1` of the transcript. */
  datatype Window = Window(lo: nat, hi: nat)

  /** The end of the window the loop cuts at `start`: `start + m`, unless that overruns the `n` words,
      in which case the window stops before the last word. */
  function NextEnd(n: int, m: int, start: int): int {
    if start + m > n then n - 1 else start + m
  }

  /** The loop over `n` words with window size `m` ends: either windows advance, or there is nothing
      to cut. */
  predicate Terminates(n: nat, m: int) {
    m >= 1 || n <= 1
  }

  /** Each window starts where the one before it ends. */
  predicate Consecutive(ws: seq<Window>) {
    forall i :: 0 < i < |ws| ==> ws[i - 1].hi == ws[i].lo
  }

  /** The windows the loop cuts from `start` on, while `start < n - 1`. */
  function WindowsFrom(n: nat, m: int, start: nat): (ws: seq<Window>)
    requires Terminates(n, m)
    ensures |ws| == 0 <==> start + 1 >= n
    ensures forall i :: 0 <= i < |ws| ==> start <= ws[i].lo < ws[i].hi <= n && ws[i].hi - ws[i].lo <= m
    ensures |ws| > 0 ==> ws[0].lo == start && ws[|ws| - 1].hi + 1 >= n
    ensures Consecutive(ws) && forall i :: 0 <= i < |ws| - 1 ==> ws[i].hi - ws[i].lo == m
    decreases n - start
  {
    if start + 1 >= n then []
    else
      var end := NextEnd(n, m, start);
      [Window(start, end)] + WindowsFrom(n, m, end)
  }

  function Windows(n: nat, m: int): seq<Window>
    requires Terminates(n, m)
  {
    WindowsFrom(n, m, 0)
  }

  /** The loop's `startIndex` after `k` rounds, for any window size. */
  function StartAfter(n: int, m: int, k: nat): int {
    if k == 0 then 0 else NextEnd(n, m, StartAfter(n, m, k - 1))
  }

  /** With a window size of zero or less and at least two words, `startIndex` never leaves the range
      `<= 0`, so the loop condition `startIndex < n - 1` holds forever. */
  lemma {:induction false} NonPositiveSizeNeverEnds(n: int, m: int, k: nat)
    requires m <= 0 && n >= 2
    ensures StartAfter(n, m, k) <= 0 && StartAfter(n, m, k) < n - 1
  {
    if k > 0 {
      NonPositiveSizeNeverEnds(n, m, k - 1);
    }
  }

  /** Where the covered words end: all of them when `m >= 2` divides their number, one short of the
      end otherwise, and nothing for zero or one word. */
  function CoveredEnd(n: nat, m: int): nat {
    if n <= 1 then 0 else if m >= 2 && n % m == 0 then n else n - 1
  }

  lemma MulAtLeast(k: int, m: int)
    requires k >= 1 && m >= 1
    ensures k * m >= m
  {
    assert k * m == (k - 1) * m + m;
  }

  /** Division with remainder is unique. */
  lemma ModUnique(a: int, m: int, q: int, r: int)
    requires m >= 1 && a == q * m + r && 0 <= r < m
    ensures a % m == r
  {
    var q0, r0 := a / m, a % m;
    assert a == q0 * m + r0;
    assert (q - q0) * m == r0 - r;
    if q > q0 {
      MulAtLeast(q - q0, m);
    } else if q < q0 {
      MulAtLeast(q0 - q, m);
    }
  }

  lemma ModOfWindowEnd(start: nat, m: int, r: int)
    requires m >= 1 && start % m == 0 && 0 <= r < m
    ensures (start + r) % m == r
  {
    var q := start / m;
    assert start == q * m;
    ModUnique(start + r, m, q, r);
  }

  /** The next multiple of `m`. */
  lemma MultipleStep(start: nat, m: int)
    requires m >= 1 && start % m == 0
    ensures (start + m) % m == 0
  {
    var q := start / m;
    assert start == q * m;
    assert start + m == (q + 1) * m;
    ModUnique(start + m, m, q + 1, 0);
  }

  /** The last window of a run from a multiple of `m` ends at `CoveredEnd`. */
  lemma {:induction false} LastEndFrom(n: nat, m: int, start: nat)
    requires m >= 1 && start % m == 0 && start + 1 < n
    ensures var ws := WindowsFrom(n, m, start); ws[|ws| - 1].hi == CoveredEnd(n, m)
    decreases n - start
  {
    var end := NextEnd(n, m, start);
    var ws := WindowsFrom(n, m, start);
    assert ws == [Window(start, end)] + WindowsFrom(n, m, end);
    if start + m > n {
      ModOfWindowEnd(start, m, n - start);
    } else if end + 1 < n {
      MultipleStep(start, m);
      LastEndFrom(n, m, end);
    } else {
      assert ws == [Window(start, end)];
      MultipleStep(start, m);
      if end < n && m >= 2 {
        ModOfWindowEnd(n - 1, m, 1);
      }
    }
  }

  /** The windows the loop cuts from word 0 end at `CoveredEnd`. */
  lemma CoveredEndOfWindows(n: nat, m: int)
    requires Terminates(n, m)
    ensures |Windows(n, m)| == 0 <==> n <= 1
    ensures |Windows(n, m)| > 0 ==> Windows(n, m)[|Windows(n, m)| - 1].hi == CoveredEnd(n, m)
  {
    if n > 1 {
      LastEndFrom(n, m, 0);
    }
  }

  /** The transcript text of the words in a window. */
  function ChunkText(words: seq<string>, w: Window): string
    requires w.lo <= w.hi <= |words|
  {
    Join(words[w.lo..w.hi], " ")
  }

  /** The chunk texts of the given windows, in order. */
  function ChunkTexts(words: seq<string>, ws: seq<Window>): (chunks: seq<string>)
    requires forall i :: 0 <= i < |ws| ==> ws[i].lo <= ws[i].hi <= |words|
    ensures |chunks| == |ws|
    ensures forall i :: 0 <= i < |ws| ==> chunks[i] == ChunkText(words, ws[i])
  {
    seq(|ws|, i requires 0 <= i < |ws| => ChunkText(words, ws[i]))
  }

  lemma ChunkTextsTail(words: seq<string>, ws: seq<Window>)
    requires |ws| > 0 && forall i :: 0 <= i < |ws| ==> ws[i].lo <= ws[i].hi <= |words|
    ensures ChunkTexts(words, ws)[1..] == ChunkTexts(words, ws[1..])
  {
  }

  /** A chunk followed by chunks that join to the next words joins to both stretches of words. */
  lemma JoinOfChunksStep(words: seq<string>, start: nat, end: nat, last: nat, chunks: seq<string>)
    requires start < end < last <= |words| && |chunks| >= 2
    requires chunks[0] == Join(words[start..end], " ")
    requires Join(chunks[1..], " ") == Join(words[end..last], " ")
    ensures Join(chunks, " ") == Join(words[start..last], " ")
  {
    JoinCons(chunks, " ");
    SliceAppend(words, start, end, last);
    JoinAppend(words[start..end], words[end..last], " ");
  }

  /** The chunks the loop cuts from `words` with window size `m`. */
  function Chunks(words: seq<string>, m: int): seq<string>
    requires Terminates(|words|, m)
  {
    ChunkTexts(words, Windows(|words|, m))
  }

  /** Joined with spaces, the chunks cut from `start` on give back the words from `start` to the end
      of the last window. */
  lemma {:induction false} ChunksJoinFrom(words: seq<string>, m: int, start: nat)
    requires Terminates(|words|, m) && start + 1 < |words|
    ensures var ws := WindowsFrom(|words|, m, start);
      Join(ChunkTexts(words, ws), " ") == Join(words[start..ws[|ws| - 1].hi], " ")
    decreases |words| - start
  {
    var n := |words|;
    var ws := WindowsFrom(n, m, start);
    var end := NextEnd(n, m, start);
    var rest := WindowsFrom(n, m, end);
    assert ws == [Window(start, end)] + rest;
    var chunks := ChunkTexts(words, ws);
    if |rest| == 0 {
      assert chunks == [ChunkText(words, Window(start, end))];
    } else {
      ChunksJoinFrom(words, m, end);
      ChunkTextsTail(words, ws);
      JoinOfChunksStep(words, start, end, rest[|rest| - 1].hi, chunks);
    }
  }

  /** Joined with spaces, the chunks give back exactly the words before `CoveredEnd`. */
  lemma ChunksCover(words: seq<string>, m: int)
    requires Terminates(|words|, m)
    ensures |words| <= 1 ==> Chunks(words, m) == []
    ensures |words| > 1 ==> Join(Chunks(words, m), " ") == Join(words[..CoveredEnd(|words|, m)], " ")
  {
    CoveredEndOfWindows(|words|, m);
    if |words| > 1 {
      ChunksJoinFrom(words, m, 0);
    }
  }

  /** When `m >= 2` divides the word count, the chunks joined with spaces are the whole text again. */
  lemma ChunksRoundTrip(text: string, m: int)
    requires var n := |SplitOn(text, " ")|; m >= 2 && n > 1 && n % m == 0
    ensures Join(Chunks(SplitOn(text, " "), m), " ") == text
  {
    var words := SplitOn(text, " ");
    ChunksCover(words, m);
    assert words[..|words|] == words;
    JoinSplitOn(text, " ");
  }

  /** Otherwise the last word is missing from the chunks. */
  lemma LastWordDropped(words: seq<string>, m: int)
    requires m >= 1 && |words| > 1 && !(m >= 2 && |words| % m == 0)
    ensures Join(Chunks(words, m), " ") == Join(words[..|words| - 1], " ")
  {
    ChunksCover(words, m);
  }

  /** Three words in windows of two: the loop cuts `"a b"` and never reaches `"c"`. */
  lemma LastWordDroppedExample()
    ensures Chunks(["a", "b", "c"], 2) == ["a b"]
  {
    var words := ["a", "b", "c"];
    assert WindowsFrom(3, 2, 2) == [];
    assert Windows(3, 2) == [Window(0, 2)];
    assert words[0..2] == ["a", "b"];
    JoinCons(["a", "b"], " ");
    assert ["a", "b"][1..] == ["b"];
    assert ChunkText(words, Window(0, 2)) == "a b";
  }

  /** The windows the loop evidently means to cut: the overrunning window stops at the last word, not
      before it, and the loop runs while words remain. */
  function FullWindowsFrom(n: nat, m: int, start: nat): (ws: seq<Window>)
    requires m >= 1
    ensures |ws| == 0 <==> start >= n
    ensures forall i :: 0 <= i < |ws| ==> start <= ws[i].lo < ws[i].hi <= n && ws[i].hi - ws[i].lo <= m
    ensures |ws| > 0 ==> ws[0].lo == start && ws[|ws| - 1].hi == n
    ensures Consecutive(ws)
    decreases n - start
  {
    if start >= n then []
    else
      var end := if start + m > n then n else start + m;
      var rest := FullWindowsFrom(n, m, end);
      ConsWindow(Window(start, end), rest, n, m);
      [Window(start, end)] + rest
  }

  /** A window in front of a run that starts where it ends keeps the run's bounds and contiguity. */
  lemma ConsWindow(w: Window, rest: seq<Window>, n: nat, m: int)
    requires w.lo < w.hi <= n && w.hi - w.lo <= m && (|rest| > 0 ==> rest[0].lo == w.hi)
    requires forall i :: 0 <= i < |rest| ==> w.hi <= rest[i].lo < rest[i].hi <= n && rest[i].hi - rest[i].lo <= m
    requires Consecutive(rest)
    ensures var ws := [w] + rest;
      (forall i :: 0 <= i < |ws| ==> w.lo <= ws[i].lo < ws[i].hi <= n && ws[i].hi - ws[i].lo <= m)
      && Consecutive(ws)
  {
    var ws := [w] + rest;
    assert forall i :: 0 < i < |ws| ==> ws[i] == rest[i - 1];
  }

  function FullChunks(words: seq<string>, m: int): seq<string>
    requires m >= 1
  {
    ChunkTexts(words, FullWindowsFrom(|words|, m, 0))
  }

  /** Joined with spaces, the evidently intended chunks give back every word from `start` on. */
  lemma {:induction false} FullChunksJoinFrom(words: seq<string>, m: int, start: nat)
    requires m >= 1 && start < |words|
    ensures Join(ChunkTexts(words, FullWindowsFrom(|words|, m, start)), " ") == Join(words[start..|words|], " ")
    decreases |words| - start
  {
    var n := |words|;
    var ws := FullWindowsFrom(n, m, start);
    var end := if start + m > n then n else start + m;
    var rest := FullWindowsFrom(n, m, end);
    assert ws == [Window(start, end)] + rest;
    var chunks := ChunkTexts(words, ws);
    if |rest| == 0 {
      assert chunks == [ChunkText(words, Window(start, end))];
    } else {
      FullChunksJoinFrom(words, m, end);
      ChunkTextsTail(words, ws);
      JoinOfChunksStep(words, start, end, n, chunks);
    }
  }

  /** The evidently intended chunks lose no word: joined with spaces they are the whole text, for
      every window size of at least one. */
  lemma FullChunksRoundTrip(text: string, m: int)
    requires m >= 1
    ensures Join(FullChunks(SplitOn(text, " "), m), " ") == text
  {
    var words := SplitOn(text, " ");
    FullChunksJoinFrom(words, m, 0);
    assert words[0..|words|] == words;
    JoinSplitOn(text, " ");
  }
}

/** `TranscriptSummarizer`: fetch the transcript, cut it into word windows, ask the configured
    back end for the key points of each, and assemble the note. */
module TranscriptSummarizer {
  import opened Wrappers
  import opened Strings
  import opened Settings
  import opened YoutubeTranscript
  import opened ChunkWindows

  // Written sentence by sentence: one long literal makes every proof that can see it slower.
  const SUMMARY_PROMPT: string :=
    "Your output should use the following template:\n\n" +
    "You have been tasked with creating a concise summary of a YouTube video using its transcription to supply notes to someone learning about the topic in the video. " +
    "You are to act like an expert in the subject the transcription is written about. " +
    "Do not start with an introduction, go right into the subject. " +
    "I will add on additional sections of the transcript after the previous one and you will create a summary for each section."
  const TEXT_INTRO: string := "\nUse the text below:\n"

  /** The language model clients as the summarizer calls them: the OpenAI query on one request text,
      and the Ollama call on the prompt and the chunk. */
  datatype Backends = Backends(openAI: string -> string, ollama: (string, string) -> string)

  /** The request text sent to OpenAI for one chunk: the prompt, the intro line, then the chunk, which
      can be read back from the end of the request. */
  function OpenAIRequest(chunk: string): (request: string)
    ensures |request| == |SUMMARY_PROMPT + TEXT_INTRO| + |chunk|
    ensures request[..|SUMMARY_PROMPT + TEXT_INTRO|] == SUMMARY_PROMPT + TEXT_INTRO
    ensures request[|SUMMARY_PROMPT + TEXT_INTRO|..] == chunk
  {
    SUMMARY_PROMPT + TEXT_INTRO + chunk
  }

  /** Different chunks make different OpenAI requests. */
  lemma OpenAIRequestInjective(c1: string, c2: string)
    requires OpenAIRequest(c1) == OpenAIRequest(c2)
    ensures c1 == c2
  {
  }

  /** `getKeyPointsFromTranscript`: provider "OpenAI" goes to OpenAI with the combined request, any
      other value to Ollama with the prompt and the chunk. */
  function KeyPoints(provider: string, backends: Backends, chunk: string): (points: string)
    ensures provider == "OpenAI" ==> points == backends.openAI(OpenAIRequest(chunk))
    ensures provider != "OpenAI" ==> points == backends.ollama(SUMMARY_PROMPT, chunk)
  {
    if provider == "OpenAI" then backends.openAI(OpenAIRequest(chunk))
    else backends.ollama(SUMMARY_PROMPT, chunk)
  }

  /** The segment texts joined by single spaces, in their order. */
  function TranscriptText(segments: seq<TranscriptSegment>): (text: string)
    ensures |segments| == 1 ==> text == segments[0].text
  {
    Join(seq(|segments|, i requires 0 <= i < |segments| => segments[i].text), " ")
  }

  /** The words the summarizer cuts: the transcript split on single spaces. */
  function TranscriptWords(segments: seq<TranscriptSegment>): (words: seq<string>)
    ensures Join(words, " ") == TranscriptText(segments)
  {
    JoinSplitOn(TranscriptText(segments), " ");
    SplitOn(TranscriptText(segments), " ")
  }

  /** The note the summarizer returns: the metadata header, a line feed, then each chunk's key points
      in chunk order separated by blank lines. */
  function SummaryNote(metadataContent: string, keyPoints: seq<string>): (note: string)
    ensures |keyPoints| == 0 ==> note == metadataContent + "\n"
  {
    metadataContent + "\n" + Join(keyPoints, "\n\n")
  }

  /** The key points of each chunk, in chunk order. */
  function KeyPointsOf(provider: string, backends: Backends, chunks: seq<string>): (points: seq<string>)
    ensures |points| == |chunks|
    ensures forall i :: 0 <= i < |chunks| ==> points[i] == KeyPoints(provider, backends, chunks[i])
  {
    seq(|chunks|, i requires 0 <= i < |chunks| => KeyPoints(provider, backends, chunks[i]))
  }

  /** The chunk loop ends on the transcript this fetch yields. */
  predicate SummaryTerminates(url: string, http: string -> string, parse: string -> CaptionsValue,
                              settings: PluginSettings)
  {
    var fetched := FetchTranscript(url, http, parse);
    fetched.Ok? ==> Terminates(|TranscriptWords(fetched.value)|, settings.maxTokenSize)
  }

  /** What `getSummaryFromUrl` resolves to, when its loop ends. */
  function Summary(url: string, metadataContent: string, http: string -> string, parse: string -> CaptionsValue,
                   settings: PluginSettings, backends: Backends): Result<string, FetchError>
    requires SummaryTerminates(url, http, parse, settings)
  {
    match FetchTranscript(url, http, parse)
    case Err(e) => Err(e)
    case Ok(segments) =>
      var chunks := Chunks(TranscriptWords(segments), settings.maxTokenSize);
      Ok(SummaryNote(metadataContent, KeyPointsOf(settings.provider, backends, chunks)))
  }

  /** The chunk loop of `getSummaryFromUrl`: cut the next window, ask for its key points, move on. */
  method CollectKeyPoints(words: seq<string>, m: int, provider: string, backends: Backends)
    returns (keyPoints: seq<string>)
    requires Terminates(|words|, m)
    ensures keyPoints == KeyPointsOf(provider, backends, Chunks(words, m))
  {
    var n := |words|;
    var startIndex: nat := 0;
    keyPoints := [];
    while startIndex + 1 < n
      invariant startIndex <= n
      invariant keyPoints + KeyPointsFrom(words, m, provider, backends, startIndex)
        == KeyPointsFrom(words, m, provider, backends, 0)
      decreases n - startIndex
    {
      var endIndex := if startIndex + m > n then n - 1 else startIndex + m;
      var chunk := Join(words[startIndex..endIndex], " ");
      KeyPointsFromStep(words, m, provider, backends, startIndex, keyPoints);
      startIndex := endIndex;
      keyPoints := keyPoints + [KeyPoints(provider, backends, chunk)];
    }
    assert keyPoints + [] == keyPoints;
    KeyPointsFromChunks(words, m, provider, backends, 0);
  }

  /** The key points the loop collects from `start` on, one round at a time. */
  function KeyPointsFrom(words: seq<string>, m: int, provider: string, backends: Backends, start: nat): seq<string>
    requires Terminates(|words|, m)
    decreases |words| - start
  {
    if start + 1 >= |words| then []
    else
      var end := NextEnd(|words|, m, start);
      [KeyPoints(provider, backends, Join(words[start..end], " "))] + KeyPointsFrom(words, m, provider, backends, end)
  }

  /** One round of the loop moves the key points of the next chunk from what remains to what is collected. */
  lemma KeyPointsFromStep(words: seq<string>, m: int, provider: string, backends: Backends, start: nat,
                          collected: seq<string>)
    requires Terminates(|words|, m) && start + 1 < |words|
    ensures var end := NextEnd(|words|, m, start);
      start < end <= |words|
      && collected + KeyPointsFrom(words, m, provider, backends, start)
         == (collected + [KeyPoints(provider, backends, Join(words[start..end], " "))])
            + KeyPointsFrom(words, m, provider, backends, end)
  {
  }

  /** Round by round, the loop asks for the key points of the chunks of the windows from `start` on. */
  lemma {:induction false} KeyPointsFromChunks(words: seq<string>, m: int, provider: string, backends: Backends,
                                               start: nat)
    requires Terminates(|words|, m)
    ensures KeyPointsFrom(words, m, provider, backends, start)
      == KeyPointsOf(provider, backends, ChunkTexts(words, WindowsFrom(|words|, m, start)))
    decreases |words| - start
  {
    var n := |words|;
    if start + 1 < n {
      var end := NextEnd(n, m, start);
      KeyPointsFromChunks(words, m, provider, backends, end);
      assert WindowsFrom(n, m, start) == [Window(start, end)] + WindowsFrom(n, m, end);
      KeyPointsOfCons(words, provider, backends, Window(start, end), WindowsFrom(n, m, end));
    }
  }

  /** The key points of the chunks of a window followed by more windows. */
  lemma KeyPointsOfCons(words: seq<string>, provider: string, backends: Backends, w: Window, rest: seq<Window>)
    requires w.lo <= w.hi <= |words| && forall i :: 0 <= i < |rest| ==> rest[i].lo <= rest[i].hi <= |words|
    ensures KeyPointsOf(provider, backends, ChunkTexts(words, [w] + rest))
      == [KeyPoints(provider, backends, ChunkText(words, w))] + KeyPointsOf(provider, backends, ChunkTexts(words, rest))
  {
    var ws := [w] + rest;
    assert forall i :: 0 < i < |ws| ==> ws[i] == rest[i - 1];
    var c := ChunkTexts(words, ws);
    assert c == [ChunkText(words, w)] + ChunkTexts(words, rest);
  }

  /** `getSummaryFromUrl`, with the metadata header given and the clients as parameters; the key point
      requests are made one after another in chunk order. */
  method GetSummaryFromUrl(url: string, metadataContent: string, http: string -> string,
                           parse: string -> CaptionsValue, settings: PluginSettings, backends: Backends)
    returns (r: Result<string, FetchError>)
    requires SummaryTerminates(url, http, parse, settings)
    ensures r == Summary(url, metadataContent, http, parse, settings, backends)
  {
    var fetched := FetchTranscript(url, http, parse);
    if fetched.Err? {
      return Err(fetched.error);
    }
    var words := TranscriptWords(fetched.value);
    var keyPoints := CollectKeyPoints(words, settings.maxTokenSize, settings.provider, backends);
    return Ok(SummaryNote(metadataContent, keyPoints));
  }

  /** A transcript of at most one word makes no back end request: the note is the header alone. */
  lemma ShortTranscriptNoRequests(url: string, metadataContent: string, http: string -> string,
                                  parse: string -> CaptionsValue, settings: PluginSettings, backends: Backends)
    requires FetchTranscript(url, http, parse).Ok?
    requires |TranscriptWords(FetchTranscript(url, http, parse).value)| <= 1
    ensures Summary(url, metadataContent, http, parse, settings, backends) == Ok(metadataContent + "\n")
  {
    ChunksCover(TranscriptWords(FetchTranscript(url, http, parse).value), settings.maxTokenSize);
  }
}
