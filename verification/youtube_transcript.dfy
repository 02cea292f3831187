/** The fetcher's exceptions and their messages. */
module TranscriptErrors {
  const ERROR_PREFIX: string := "[YoutubeTranscript] \U{1F6A8} "
  // The long texts are written in parts so that the verifier can read their first characters.
  const TOO_MANY_REQUESTS_DETAIL: string :=
    "YouTube is receiving too many requests " + "from this IP and now requires solving a captcha to continue"
  const UNAVAILABLE_TEXT: string := "The video is no longer available"
  const DISABLED_TEXT: string := "Transcript is disabled on this video"
  const NOT_AVAILABLE_TEXT: string := "No transcripts are available " + "for this video"
  /** The per-video details are the text, then the argument in parentheses. */
  const UNAVAILABLE_LEAD: string := UNAVAILABLE_TEXT + " ("
  const DISABLED_LEAD: string := DISABLED_TEXT + " ("
  const NOT_AVAILABLE_LEAD: string := NOT_AVAILABLE_TEXT + " ("
  const NO_VIDEO_ID_DETAIL: string := "Impossible to retrieve Youtube video ID."

  /** The fetcher's exceptions: the four subclasses of YoutubeTranscriptError and the base class itself,
      which the identifier extraction throws. The per-video ones carry the argument the caller passed. */
  datatype TranscriptError =
    | TooManyRequests
    | VideoUnavailable(videoId: string)
    | TranscriptDisabled(videoId: string)
    | TranscriptNotAvailable(videoId: string)
    | VideoIdNotFound

  /** The text after the common prefix. */
  function Detail(e: TranscriptError): string {
    match e
    case TooManyRequests => TOO_MANY_REQUESTS_DETAIL
    case VideoUnavailable(v) => UNAVAILABLE_LEAD + v + ")"
    case TranscriptDisabled(v) => DISABLED_LEAD + v + ")"
    case TranscriptNotAvailable(v) => NOT_AVAILABLE_LEAD + v + ")"
    case VideoIdNotFound => NO_VIDEO_ID_DETAIL
  }

  /** The exception's message: the fetcher's prefix followed by the detail. */
  function Message(e: TranscriptError): (msg: string)
    ensures |msg| == |ERROR_PREFIX| + |Detail(e)|
    ensures msg[..|ERROR_PREFIX|] == ERROR_PREFIX && msg[|ERROR_PREFIX|..] == Detail(e)
  {
    ERROR_PREFIX + Detail(e)
  }

  /** The first two characters of each detail. */
  function DetailStart(e: TranscriptError): (char, char) {
    match e
    case TooManyRequests => ('Y', 'o')
    case VideoUnavailable(_) => ('T', 'h')
    case TranscriptDisabled(_) => ('T', 'r')
    case TranscriptNotAvailable(_) => ('N', 'o')
    case VideoIdNotFound => ('I', 'm')
  }

  lemma DetailStartsWith(e: TranscriptError)
    ensures |Detail(e)| >= 2 && (Detail(e)[0], Detail(e)[1]) == DetailStart(e)
  {
    match e
    case TooManyRequests =>
    case VideoUnavailable(v) => LeadOf(UNAVAILABLE_LEAD, v);
    case TranscriptDisabled(v) => LeadOf(DISABLED_LEAD, v);
    case TranscriptNotAvailable(v) => LeadOf(NOT_AVAILABLE_LEAD, v);
    case VideoIdNotFound =>
  }

  lemma LeadOf(lead: string, v: string)
    requires |lead| >= 2
    ensures (lead + v + ")")[0] == lead[0] && (lead + v + ")")[1] == lead[1]
  {
  }

  /** The argument of a per-video error sits between the lead text and the closing parenthesis. */
  lemma ArgumentOf(lead: string, v: string)
    ensures |lead + v + ")"| == |lead| + |v| + 1
    ensures (lead + v + ")")[|lead|..|lead| + |v|] == v
  {
    assert (lead + v + ")")[|lead|..|lead| + |v|] == (lead + v)[|lead|..];
  }

  /** The message of a per-video error ends with the caller's argument in parentheses. */
  lemma MessageNamesArgument(e: TranscriptError)
    requires !e.TooManyRequests? && !e.VideoIdNotFound?
    ensures var msg := Message(e);
      |msg| >= |e.videoId| + 2 && msg[|msg| - |e.videoId| - 2..] == "(" + e.videoId + ")"
  {
    match e
    case VideoUnavailable(v) => EndsWithArgument(ERROR_PREFIX, UNAVAILABLE_TEXT, v);
    case TranscriptDisabled(v) => EndsWithArgument(ERROR_PREFIX, DISABLED_TEXT, v);
    case TranscriptNotAvailable(v) => EndsWithArgument(ERROR_PREFIX, NOT_AVAILABLE_TEXT, v);
  }

  lemma EndsWithArgument(prefix: string, text: string, v: string)
    ensures var msg := prefix + (text + " (" + v + ")");
      |msg| >= |v| + 2 && msg[|msg| - |v| - 2..] == "(" + v + ")"
  {
    var msg := prefix + (text + " (" + v + ")");
    assert msg == (prefix + text + " ") + ("(" + v + ")");
  }

  /** Different errors have different messages, so the message tells the caller which failure happened
      and for which argument. */
  lemma MessageInjective(e1: TranscriptError, e2: TranscriptError)
    requires Message(e1) == Message(e2)
    ensures e1 == e2
  {
    var d1, d2 := Detail(e1), Detail(e2);
    assert d1 == d2;
    DetailStartsWith(e1);
    DetailStartsWith(e2);
    match e1
    case VideoUnavailable(v) =>
      ArgumentOf(UNAVAILABLE_LEAD, v);
      ArgumentOf(UNAVAILABLE_LEAD, e2.videoId);
    case TranscriptDisabled(v) =>
      ArgumentOf(DISABLED_LEAD, v);
      ArgumentOf(DISABLED_LEAD, e2.videoId);
    case TranscriptNotAvailable(v) =>
      ArgumentOf(NOT_AVAILABLE_LEAD, v);
      ArgumentOf(NOT_AVAILABLE_LEAD, e2.videoId);
    case _ =>
  }

}

/** The caption fetcher: extraction of the video identifier, classification of the fetch failures, and
    the list of caption segments. The HTTP client and `JSON.parse` are parameters, so the whole fetch is
    a function of what they return. */
module YoutubeTranscript {
  import opened Wrappers
  import opened Strings
  import opened YoutubeRegex
  import opened TranscriptErrors

  /** `retrieveVideoId`: an argument of exactly eleven characters is taken as the identifier unchecked;
      otherwise the capture group of the first RE_YOUTUBE match, or VideoIdNotFound. */
  function RetrieveVideoId(videoId: string): (r: Result<string, TranscriptError>)
    ensures |videoId| == 11 ==> r == Ok(videoId)
    ensures |videoId| != 11 ==> (r.Ok? <==> exists p, q :: MatchAt(videoId, p, q))
    ensures r.Ok? ==> |r.value| == 11
    ensures |videoId| != 11 && r.Ok? ==>
      (forall k :: 0 <= k < 11 ==> IsIdChar(r.value[k]))
      && exists p: nat, q: nat :: FirstMatch(videoId, p, q) && r.value == videoId[q..q + 11]
    ensures |videoId| != 11 ==> forall p, q :: FirstMatch(videoId, p, q) ==> r == Ok(videoId[q..q + 11])
    ensures r.Err? ==> r.error == VideoIdNotFound
  {
    if |videoId| == 11 then Ok(videoId)
    else
      match MatchYoutubeId(videoId)
      case Some(id) => Ok(id)
      case None => Err(VideoIdNotFound)
  }

  /** Extracting from an extracted identifier gives it back. */
  lemma RetrieveVideoIdIdempotent(videoId: string)
    requires RetrieveVideoId(videoId).Ok?
    ensures RetrieveVideoId(RetrieveVideoId(videoId).value) == RetrieveVideoId(videoId)
  {
  }

  /** When the first match starts at `p` and has only one way to end its prefix, extraction returns
      the eleven characters after that prefix. */
  lemma FirstMatchIs(s: string, p: nat, q: nat)
    requires |s| != 11 && MatchAt(s, p, q)
    requires forall p', q' :: 0 <= p' < p ==> !MatchAt(s, p', q')
    requires forall q' :: MatchAt(s, p, q') ==> q' == q
    ensures RetrieveVideoId(s) == Ok(s[q..q + 11])
  {
    var m := FindFrom(s, 0);
    assert m.Some?;
    assert m.value.0 == p;
  }

  /** The pieces of a text built by concatenation sit at their offsets. */
  lemma PartAt(pre: string, part: string, post: string)
    ensures var s := pre + part + post;
      s[..|pre|] == pre && s[|pre|..|pre| + |part|] == part
  {
  }

  /** A piece of the input that equals a literal matches it case-insensitively. */
  lemma LiteralAt(s: string, p: nat, lit: string)
    requires p + |lit| <= |s| && s[p..p + |lit|] == lit
    ensures CiLitAt(s, p, lit)
  {
    forall k | 0 <= k < |lit| ensures CiCharEq(s[p + k], lit[k]) {
      assert s[p + k] == s[p..p + |lit|][k];
    }
  }

  /** Eleven identifier characters placed at `q` form an identifier there. */
  lemma IdentifierAt(s: string, q: nat, id: string)
    requires |id| == 11 && forall k :: 0 <= k < 11 ==> IsIdChar(id[k])
    requires q + 11 <= |s| && s[q..q + 11] == id
    ensures IdAt(s, q)
  {
    forall k | q <= k < q + 11 ensures IsIdChar(s[k]) {
      assert s[k] == s[q..q + 11][k - q];
    }
  }

  /** Both literals of RE_YOUTUBE start with a `y`, so no match starts before the first one. */
  lemma NoMatchBefore(s: string, n: nat)
    requires forall k :: 0 <= k < n && k < |s| ==> s[k] != 'y' && s[k] != 'Y'
    ensures forall p, q :: 0 <= p < n ==> !MatchAt(s, p, q)
  {
    forall p, q | 0 <= p < n && MatchAt(s, p, q) ensures false {
      if CiLitAt(s, p, "youtube.com/") { CiLitAtChar(s, p, "youtube.com/", 0); }
      else { CiLitAtChar(s, p, "youtu.be/", 0); }
    }
  }

  const SCHEME: string := "https://"
  const SHORT_HOST: string := "youtu.be/"

  /** The identifier a share link carries is the one extracted from it. */
  lemma ShortUrlRoundTrip(id: string)
    requires |id| == 11 && forall k :: 0 <= k < 11 ==> IsIdChar(id[k])
    ensures RetrieveVideoId(SCHEME + SHORT_HOST + id) == Ok(id)
  {
    var s := SCHEME + SHORT_HOST + id;
    ShortUrlLayout(id);
    ShortUrlMatch(s, id);
    forall q | MatchAt(s, 8, q) ensures q == 17 {
      ShortPathUnique(s, q);
    }
    FirstMatchIs(s, 8, 17);
  }

  /** Where the parts of a share link sit. */
  lemma ShortUrlLayout(id: string)
    requires |id| == 11
    ensures var s := SCHEME + SHORT_HOST + id;
      |s| == 28 && s[..8] == SCHEME && s[8..17] == SHORT_HOST && s[17..28] == id
  {
    var s := SCHEME + SHORT_HOST + id;
    PartAt(SCHEME, SHORT_HOST, id);
    PartAt(SCHEME + SHORT_HOST, id, "");
    assert s == SCHEME + SHORT_HOST + id + "";
  }

  /** A share link matches at its host, not before, and has a dot where `youtube.com/` has a `b`. */
  lemma ShortUrlMatch(s: string, id: string)
    requires |id| == 11 && forall k :: 0 <= k < 11 ==> IsIdChar(id[k])
    requires |s| == 28 && s[..8] == SCHEME && s[8..17] == SHORT_HOST && s[17..28] == id
    ensures MatchAt(s, 8, 17) && s[17..28] == id && s[13] == '.'
    ensures forall p, q :: 0 <= p < 8 ==> !MatchAt(s, p, q)
  {
    LiteralAt(s, 8, SHORT_HOST);
    IdentifierAt(s, 17, id);
    forall k | 0 <= k < 8 ensures s[k] != 'y' && s[k] != 'Y' {
      assert s[k] == s[..8][k];
    }
    NoMatchBefore(s, 8);
    assert s[13] == s[8..17][5];
  }

  /** At a `youtu.` whose next character is a dot only the short-link literal applies. */
  lemma ShortPathUnique(s: string, q: nat)
    requires |s| > 13 && s[13] == '.' && MatchAt(s, 8, q)
    ensures q == 17
  {
    if CiLitAt(s, 8, "youtube.com/") {
      CiLitAtChar(s, 8, "youtube.com/", 5);
    }
  }

  const WATCH_HOST: string := "https://www." + "youtube.com/"
  const WATCH_QUERY: string := "watch?v="
  /** The watch page address the fetcher requests, before the identifier. */
  const WATCH_URL: string := WATCH_HOST + WATCH_QUERY

  /** The identifier a watch page link carries is the one extracted from it. */
  lemma WatchUrlRoundTrip(id: string)
    requires |id| == 11 && forall k :: 0 <= k < 11 ==> IsIdChar(id[k])
    ensures RetrieveVideoId(WATCH_URL + id) == Ok(id)
  {
    var s := WATCH_URL + id;
    assert s == "https://www." + "youtube.com/" + (WATCH_QUERY + id);
    PartAt("https://www.", "youtube.com/", WATCH_QUERY + id);
    assert s == WATCH_HOST + WATCH_QUERY + id;
    PartAt(WATCH_HOST, WATCH_QUERY, id);
    assert s == WATCH_URL + id + "";
    PartAt(WATCH_URL, id, "");
    LiteralAt(s, 12, "youtube.com/");
    IdentifierAt(s, 32, id);
    forall k | 24 <= k < 32 ensures s[k] == WATCH_QUERY[k - 24] {
      assert s[k] == s[24..32][k - 24];
    }
    assert s[30..32] == "v=";
    LiteralAt(s, 30, "v=");
    assert QueryForm(s, 24, 32);
    assert MatchAt(s, 12, 32);
    forall k | 0 <= k < 12 ensures s[k] != 'y' && s[k] != 'Y' {
      assert s[k] == s[..12][k] == "https://www."[k];
    }
    NoMatchBefore(s, 12);
    assert s[17] == s[12..24][5] == 'b';
    forall q | MatchAt(s, 12, q) ensures q == 32 {
      WatchPathUnique(s, q);
    }
    FirstMatchIs(s, 12, 32);
  }

  /** After `youtube.com/` in a watch link only the `v=` query form ends where the identifier starts. */
  lemma WatchPathUnique(s: string, q: nat)
    requires |s| == 43 && IdAt(s, 32) && s[17] == 'b'
    requires forall k :: 24 <= k < 32 ==> s[k] == WATCH_QUERY[k - 24]
    requires MatchAt(s, 12, q)
    ensures q == 32
  {
    if CiLitAt(s, 12, "youtu.be/") { CiLitAtChar(s, 12, "youtu.be/", 5); }
    forall k | 24 <= k < |s| && k != 29 ensures s[k] != '/' && s[k] != '?' && s[k] != '&' {
      if k < 32 { assert s[k] == WATCH_QUERY[k - 24]; }
    }
    if NestedPathForm(s, 24, q) {
      assert false;
    } else if VideoEmbedForm(s, 24, q) {
      assert s[24] == 'w';
      if q == 26 {
        if CiLitAt(s, 24, "v/") { CiLitAtChar(s, 24, "v/", 0); } else { CiLitAtChar(s, 24, "e/", 0); }
      } else {
        CiLitAtChar(s, 24, "embed/", 0);
      }
    } else {
      assert QueryForm(s, 24, q);
    }
  }

  /** A short link's identifier is taken whatever follows it, even a second link. */
  lemma ShortLinkFirst(id: string, rest: string)
    requires |id| == 11 && forall k :: 0 <= k < 11 ==> IsIdChar(id[k])
    ensures RetrieveVideoId(SHORT_HOST + id + rest) == Ok(id)
  {
    var s := SHORT_HOST + id + rest;
    PartAt(SHORT_HOST, id, rest);
    LiteralAt(s, 0, SHORT_HOST);
    IdentifierAt(s, 9, id);
    assert s[5] == s[..9][5] == '.';
    if CiLitAt(s, 0, "youtube.com/") { CiLitAtChar(s, 0, "youtube.com/", 5); }
    assert FirstMatch(s, 0, 9);
  }

  const VIDEO_PATH_HOST: string := "youtube.com/" + "v/"

  /** In `youtube.com/v/<a>/<b>` both the `v/` alternative and the nested-path alternative match at the
      start; the nested path comes first in the pattern, so `b` is taken. */
  lemma NestedPathBeforeVideoPath(a: string, b: string)
    requires |a| == 11 && forall k :: 0 <= k < 11 ==> IsIdChar(a[k])
    requires |b| == 11 && forall k :: 0 <= k < 11 ==> IsIdChar(b[k])
    ensures var s := VIDEO_PATH_HOST + a + ("/" + b);
      MatchAt(s, 0, 14) && RetrieveVideoId(s) == Ok(b)
  {
    var s := VIDEO_PATH_HOST + a + ("/" + b);
    PartAt(VIDEO_PATH_HOST, a, "/" + b);
    assert s == VIDEO_PATH_HOST + a + "/" + b + "";
    PartAt(VIDEO_PATH_HOST + a + "/", b, "");
    assert s[..12] == "youtube.com/" && s[12..14] == "v/" by {
      assert s[..12] == s[..14][..12] && s[12..14] == s[..14][12..];
    }
    LiteralAt(s, 0, "youtube.com/");
    LiteralAt(s, 12, "v/");
    IdentifierAt(s, 14, a);
    IdentifierAt(s, 26, b);
    assert MatchAt(s, 0, 14) by {
      assert VideoEmbedForm(s, 12, 14);
    }
    assert s[13] == '/' && s[25] == '/';
    assert NestedPathForm(s, 12, 26) by {
      assert NoneEqual(s, 12, 13, '/');
      assert NoLineTerminator(s, 14, 25);
    }
    assert FirstMatch(s, 0, 26);
  }

  /** A transcript segment: the text of one caption element. */
  datatype TranscriptSegment = TranscriptSegment(text: string)

  /** The segments carrying the given texts, in order. */
  function Segments(texts: seq<string>): (segments: seq<TranscriptSegment>)
    ensures |segments| == |texts| && forall i :: 0 <= i < |texts| ==> segments[i].text == texts[i]
  {
    seq(|texts|, i requires 0 <= i < |texts| => TranscriptSegment(texts[i]))
  }

  /** One caption track of the player's caption list. */
  datatype CaptionTrack = CaptionTrack(baseUrl: string)

  /** What the fetcher reads from the parsed player data: NoCaptions when `JSON.parse` throws or the
      renderer field is absent or falsy; otherwise whether the renderer has a `captionTracks` field and
      the tracks it lists. */
  datatype CaptionsValue = NoCaptions | Captions(captionTracks: Option<seq<CaptionTrack>>)

  /** A fetch fails with one of the fetcher's errors, or with the runtime error of reading the first
      element of an empty track list. */
  datatype FetchError = Failure(error: TranscriptError) | EmptyTrackList

  const CAPTIONS_MARKER: string := "\"captions\":"
  const CAPTCHA_MARKER: string := "class=\"g-recaptcha\""
  const PLAYABILITY_MARKER: string := "\"playabilityStatus\":"
  const VIDEO_DETAILS_MARKER: string := ",\"videoDetails"

  /** The part of the page the fetcher reads the captions from: after the first `"captions":` up to
      the next one, cut at the first `,"videoDetails`. Neither marker occurs inside it. */
  function CaptionsSection(page: string): (section: string)
    requires Contains(page, CAPTIONS_MARKER)
    ensures var start := IndexOf(page, CAPTIONS_MARKER).value + |CAPTIONS_MARKER|;
      start + |section| <= |page| && section == page[start..start + |section|]
    ensures var start := IndexOf(page, CAPTIONS_MARKER).value + |CAPTIONS_MARKER|;
      forall j :: start <= j < start + |section| ==> !OccursAt(page, CAPTIONS_MARKER, j)
    ensures var start := IndexOf(page, CAPTIONS_MARKER).value + |CAPTIONS_MARKER|;
      || start + |section| == |page|
      || OccursAt(page, CAPTIONS_MARKER, start + |section|)
      || OccursAt(page, VIDEO_DETAILS_MARKER, start + |section|)
    ensures !Contains(section, CAPTIONS_MARKER) && !Contains(section, VIDEO_DETAILS_MARKER)
  {
    SecondPieceCut(page, CAPTIONS_MARKER, VIDEO_DETAILS_MARKER);
    SplitOn(SplitOn(page, CAPTIONS_MARKER)[1], VIDEO_DETAILS_MARKER)[0]
  }

  /** The two markers cannot overlap each other or themselves across the joins of a page. */
  lemma MarkersApart()
    ensures |CAPTIONS_MARKER| > 1 && |VIDEO_DETAILS_MARKER| > 0 && Unbordered(CAPTIONS_MARKER)
    ensures forall k :: 0 <= k < |CAPTIONS_MARKER| ==> CAPTIONS_MARKER[k] != VIDEO_DETAILS_MARKER[0]
    ensures forall d :: 0 < d < |VIDEO_DETAILS_MARKER| ==> VIDEO_DETAILS_MARKER[d] != VIDEO_DETAILS_MARKER[0]
    ensures forall d :: 0 < d < |VIDEO_DETAILS_MARKER| && VIDEO_DETAILS_MARKER[d] == CAPTIONS_MARKER[0] ==>
      d + 1 < |VIDEO_DETAILS_MARKER| && VIDEO_DETAILS_MARKER[d + 1] != CAPTIONS_MARKER[1]
  {
    CaptionsMarkerUnbordered();
    CaptionsMarkerNoComma();
    VideoDetailsMarkerQuoteOnce();
  }

  /** `"captions":` has no proper suffix that is also a prefix. */
  lemma CaptionsMarkerUnbordered()
    ensures Unbordered(CAPTIONS_MARKER)
  {
    var c := CAPTIONS_MARKER;
    assert '"' !in c[1..9] && c[10] == ':';
    forall d | 0 < d < |c| ensures c[d..] != c[..|c| - d] {
      if d == 9 {
        assert c[d..][1] != c[..|c| - d][1];
      } else {
        if d < 9 { assert c[d] == c[1..9][d - 1]; }
        assert c[d..][0] != c[..|c| - d][0];
      }
    }
  }

  /** `"captions":` holds no comma, the first character of `,"videoDetails`. */
  lemma CaptionsMarkerNoComma()
    ensures forall k :: 0 <= k < |CAPTIONS_MARKER| ==> CAPTIONS_MARKER[k] != VIDEO_DETAILS_MARKER[0]
  {
    var c := CAPTIONS_MARKER;
    assert ',' !in c;
    assert forall k :: 0 <= k < |c| ==> c[k] in c;
  }

  /** `,"videoDetails` has its comma only at the start, and its one quote, at index 1, is followed by
      `v`, not by the `c` that follows the quote in `"captions":`. */
  lemma VideoDetailsMarkerQuoteOnce()
    ensures forall d :: 0 < d < |VIDEO_DETAILS_MARKER| ==> VIDEO_DETAILS_MARKER[d] != VIDEO_DETAILS_MARKER[0]
    ensures forall d :: 0 < d < |VIDEO_DETAILS_MARKER| && VIDEO_DETAILS_MARKER[d] == CAPTIONS_MARKER[0] ==>
      d + 1 < |VIDEO_DETAILS_MARKER| && VIDEO_DETAILS_MARKER[d + 1] != CAPTIONS_MARKER[1]
  {
    var v := VIDEO_DETAILS_MARKER;
    var w := v[2..];
    assert w == "videoDetails";
    assert ',' !in w && '"' !in w;
    forall d | 0 < d < |v| ensures v[d] != ',' && (v[d] == '"' ==> d == 1) {
      if d >= 2 { assert v[d] == w[d - 2]; }
    }
  }

  /** A page with one captions block that ends at `,"videoDetails`: the section read is that block. */
  lemma CaptionsSectionOf(head: string, body: string, tail: string)
    requires !Contains(head, CAPTIONS_MARKER)
    requires !Contains(body, CAPTIONS_MARKER) && !Contains(body, VIDEO_DETAILS_MARKER)
    ensures var page := head + CAPTIONS_MARKER + body + VIDEO_DETAILS_MARKER + tail;
      Contains(page, CAPTIONS_MARKER) && CaptionsSection(page) == body
  {
    MarkersApart();
    SecondPieceOf(head, CAPTIONS_MARKER, body, VIDEO_DETAILS_MARKER, tail);
  }

  /** The text handed to `JSON.parse`: the captions section with its first line feed removed. */
  function CaptionsJsonText(page: string): (json: string)
    requires Contains(page, CAPTIONS_MARKER)
    ensures !Contains(CaptionsSection(page), "\n") ==> json == CaptionsSection(page)
    ensures Contains(CaptionsSection(page), "\n") ==>
      var section := CaptionsSection(page);
      var k := IndexOf(section, "\n").value;
      k < |section| && section[k] == '\n' && '\n' !in section[..k]
      && json == section[..k] + section[k + 1..]
  {
    var section := CaptionsSection(page);
    FirstLineFeed(section);
    ReplaceFirst(section, "\n", "")
  }

  /** The first line feed of `s`, as `indexOf` finds it, has none before it. */
  lemma FirstLineFeed(s: string)
    ensures Contains(s, "\n") ==>
      var k := IndexOf(s, "\n").value;
      k < |s| && s[k] == '\n' && '\n' !in s[..k]
  {
    match IndexOf(s, "\n")
    case None =>
    case Some(k) =>
      assert s[k..k + 1] == "\n";
      forall j | 0 <= j < k ensures s[..k][j] != '\n' {
        assert !OccursAt(s, "\n", j);
        assert s[j..j + 1] == [s[j]];
      }
  }

  /** For a page whose captions block is `before + "\n" + after`, with no line feed in `before`, the
      text handed to `JSON.parse` is the block without that line feed. */
  lemma CaptionsJsonTextOf(head: string, before: string, after: string, tail: string)
    requires '\n' !in before
    requires !Contains(head, CAPTIONS_MARKER)
    requires var body := before + "\n" + after;
      !Contains(body, CAPTIONS_MARKER) && !Contains(body, VIDEO_DETAILS_MARKER)
    ensures var page := head + CAPTIONS_MARKER + (before + "\n" + after) + VIDEO_DETAILS_MARKER + tail;
      Contains(page, CAPTIONS_MARKER) && CaptionsJsonText(page) == before + after
  {
    var body := before + "\n" + after;
    var page := head + CAPTIONS_MARKER + body + VIDEO_DETAILS_MARKER + tail;
    CaptionsSectionOf(head, body, tail);
    JsonTextOfSection(page);
    DropFirstLineFeed(before, after);
  }

  /** The text handed to `JSON.parse` is the captions section after a first-occurrence replacement of
      the line feed with nothing. */
  lemma JsonTextOfSection(page: string)
    requires Contains(page, CAPTIONS_MARKER)
    ensures CaptionsJsonText(page) == ReplaceFirst(CaptionsSection(page), "\n", "")
  {
  }

  /** Replacing the first line feed of `before + "\n" + after` with nothing, when `before` has none,
      joins `before` and `after`. */
  lemma DropFirstLineFeed(before: string, after: string)
    requires '\n' !in before
    ensures ReplaceFirst(before + "\n" + after, "\n", "") == before + after
  {
    NoLineFeed(before);
    ReplaceFirstAfterClean(before, "\n", after, "");
    assert before + "" + after == before + after;
  }

  /** A text without the line feed character does not contain the one-character string. */
  lemma NoLineFeed(s: string)
    requires '\n' !in s
    ensures !Contains(s, "\n")
  {
    forall i: nat | i < |s| ensures !OccursAt(s, "\n", i) {
      assert s[i..i + 1][0] == s[i];
    }
  }

  /** The first stage of the fetch, from the watch page to the caption track's address. */
  function CaptionTrackUrl(videoId: string, page: string, parse: string -> CaptionsValue)
    : (r: Result<string, FetchError>)
    ensures r == Err(Failure(TooManyRequests)) <==>
      !Contains(page, CAPTIONS_MARKER) && Contains(page, CAPTCHA_MARKER)
    ensures r == Err(Failure(VideoUnavailable(videoId))) <==>
      !Contains(page, CAPTIONS_MARKER) && !Contains(page, CAPTCHA_MARKER) && !Contains(page, PLAYABILITY_MARKER)
    ensures r == Err(Failure(TranscriptDisabled(videoId))) <==>
      if Contains(page, CAPTIONS_MARKER) then parse(CaptionsJsonText(page)).NoCaptions?
      else !Contains(page, CAPTCHA_MARKER) && Contains(page, PLAYABILITY_MARKER)
    ensures r == Err(Failure(TranscriptNotAvailable(videoId))) <==>
      Contains(page, CAPTIONS_MARKER) && parse(CaptionsJsonText(page)) == Captions(None)
    ensures r == Err(EmptyTrackList) <==>
      Contains(page, CAPTIONS_MARKER) && parse(CaptionsJsonText(page)) == Captions(Some([]))
    ensures r.Ok? <==> Contains(page, CAPTIONS_MARKER) && (var c := parse(CaptionsJsonText(page));
      c.Captions? && c.captionTracks.Some? && |c.captionTracks.value| > 0
      && r == Ok(c.captionTracks.value[0].baseUrl))
  {
    if |SplitOn(page, CAPTIONS_MARKER)| <= 1 then
      if Contains(page, CAPTCHA_MARKER) then Err(Failure(TooManyRequests))
      else if !Contains(page, PLAYABILITY_MARKER) then Err(Failure(VideoUnavailable(videoId)))
      else Err(Failure(TranscriptDisabled(videoId)))
    else
      match parse(CaptionsJsonText(page))
      case NoCaptions => Err(Failure(TranscriptDisabled(videoId)))
      case Captions(None) => Err(Failure(TranscriptNotAvailable(videoId)))
      case Captions(Some(tracks)) =>
        if |tracks| == 0 then Err(EmptyTrackList) else Ok(tracks[0].baseUrl)
  }

  /** `fetchTranscript`: `http` maps an address to the text of the response, `parse` stands for
      `JSON.parse` followed by the read of the renderer field. */
  function FetchTranscript(videoId: string, http: string -> string, parse: string -> CaptionsValue)
    : (r: Result<seq<TranscriptSegment>, FetchError>)
    ensures RetrieveVideoId(videoId).Err? <==> r == Err(Failure(VideoIdNotFound))
    ensures r.Err? && r.error.Failure? && !r.error.error.TooManyRequests? && !r.error.error.VideoIdNotFound? ==>
      r.error.error.videoId == videoId
    ensures r.Ok? ==> RetrieveVideoId(videoId).Ok? && (var url := CaptionTrackUrl(videoId, http(WATCH_URL + RetrieveVideoId(videoId).value), parse);
        url.Ok? && http(url.value) != "" && r.value == Segments(ScanTexts(http(url.value))))
    ensures RetrieveVideoId(videoId).Ok? ==>
      (var url := CaptionTrackUrl(videoId, http(WATCH_URL + RetrieveVideoId(videoId).value), parse);
       (url.Err? ==> r == Err(url.error))
       && (url.Ok? && http(url.value) == "" ==> r == Err(Failure(TranscriptNotAvailable(videoId)))))
    ensures r.Ok? ==> forall i :: 0 <= i < |r.value| ==> '<' !in r.value[i].text
  {
    match RetrieveVideoId(videoId)
    case Err(e) => Err(Failure(e))
    case Ok(identifier) =>
      match CaptionTrackUrl(videoId, http(WATCH_URL + identifier), parse)
      case Err(e) => Err(e)
      case Ok(url) =>
        var body := http(url);
        if body == "" then Err(Failure(TranscriptNotAvailable(videoId)))
        else
          Ok(Segments(ScanTexts(body)))
  }

  /** Once the track address is known and its body is not empty, the segments are the scanned texts. */
  lemma FetchBody(videoId: string, http: string -> string, parse: string -> CaptionsValue, url: string)
    requires RetrieveVideoId(videoId).Ok?
    requires CaptionTrackUrl(videoId, http(WATCH_URL + RetrieveVideoId(videoId).value), parse) == Ok(url)
    requires http(url) != ""
    ensures FetchTranscript(videoId, http, parse) == Ok(Segments(ScanTexts(http(url))))
  {
  }

  /** Served a rendered caption document, the fetcher gives back the texts of its elements in order. */
  lemma FetchRenderedCaptions(videoId: string, http: string -> string, parse: string -> CaptionsValue,
                              url: string, elements: seq<CaptionElement>)
    requires RetrieveVideoId(videoId).Ok?
    requires CaptionTrackUrl(videoId, http(WATCH_URL + RetrieveVideoId(videoId).value), parse) == Ok(url)
    requires http(url) == RenderCaptions(elements) && |elements| > 0
    requires forall i :: 0 <= i < |elements| ==>
      CapturesWellFormed(elements[i].start, elements[i].dur, elements[i].text)
    ensures FetchTranscript(videoId, http, parse) == Ok(Segments(ElementTexts(elements)))
  {
    var body := http(url);
    RenderCaptionsNonEmpty(elements);
    ScanRenderedCaptions(elements);
    assert ScanTexts(body) == ElementTexts(elements);
    FetchBody(videoId, http, parse, url);
  }

  lemma RenderCaptionsNonEmpty(elements: seq<CaptionElement>)
    requires |elements| > 0
    ensures RenderCaptions(elements) != ""
  {
    var e := elements[0];
    assert |RenderCaptions(elements)| >= |TextElement(e.start, e.dur, e.text)| >= |TEXT_OPEN|;
  }
}
