/** Hand-written matchers for the two regular expressions of the transcript fetcher:
    RE_YOUTUBE, which finds an 11-character video identifier in a URL (case-insensitive, first match),
    and RE_XML_TRANSCRIPT, whose global `matchAll` lists the `<text>` elements of a caption track.
    Each matcher follows the backtracking order of a JavaScript regular expression engine and is proved
    against a declarative description of the language the expression accepts. */
module YoutubeRegex {
  import opened Wrappers
  import opened Strings

  // ---------------------------------------------------------------------------------------------
  // Character classes and literals

  /** A character the capture group `[^"&?/\s]` accepts. */
  predicate IsIdChar(c: char) {
    c != '"' && c != '&' && c != '?' && c != '/' && !IsJsWhitespace(c)
  }

  /** Eleven identifier characters start at `q`. */
  predicate IdAt(s: string, q: int) {
    0 <= q && q + 11 <= |s| && forall k :: q <= k < q + 11 ==> IsIdChar(s[k])
  }

  /** Input character `c` matches pattern character `lit` under the `i` flag (non-Unicode mode): an
      ASCII letter also matches its upper-case form, and no other character folds. */
  predicate CiCharEq(c: char, lit: char) {
    c == lit || ('a' <= lit <= 'z' && c as int == lit as int - 32)
  }

  /** The pattern literal `lit` matches case-insensitively at `p`. */
  predicate CiLitAt(s: string, p: int, lit: string) {
    0 <= p && p + |lit| <= |s| && forall k :: 0 <= k < |lit| ==> CiCharEq(s[p + k], lit[k])
  }

  /** One character of a case-insensitive literal match. */
  lemma CiLitAtChar(s: string, p: int, lit: string, k: nat)
    requires CiLitAt(s, p, lit) && k < |lit|
    ensures CiCharEq(s[p + k], lit[k])
  {
  }

  /** No character of `s[lo..hi]` is `c`. */
  predicate NoneEqual(s: string, lo: int, hi: int, c: char) {
    0 <= lo <= hi <= |s| && forall k :: lo <= k < hi ==> s[k] != c
  }

  /** `s[lo..hi]` holds no line terminator: `.` can consume it. */
  predicate NoLineTerminator(s: string, lo: int, hi: int) {
    0 <= lo <= hi <= |s| && forall k :: lo <= k < hi ==> !IsLineTerminator(s[k])
  }

  /** The first index at or after `i` holding `c`, or `|s|`. */
  function FirstIndexOf(s: string, c: char, i: nat): (r: nat)
    requires i <= |s|
    ensures i <= r <= |s| && NoneEqual(s, i, r, c)
    ensures r < |s| ==> s[r] == c
    decreases |s| - i
  {
    if i == |s| || s[i] == c then i else FirstIndexOf(s, c, i + 1)
  }

  /** A position holding `c` with no `c` before it (from `i`) is the first index of `c`. */
  lemma FirstIndexOfIs(s: string, c: char, i: nat, j: nat)
    requires i <= j < |s| && s[j] == c && NoneEqual(s, i, j, c)
    ensures FirstIndexOf(s, c, i) == j
  {
  }

  /** The first line terminator at or after `i`, or `|s|`: how far `.` can reach from `i`. */
  function LineEnd(s: string, i: nat): (r: nat)
    requires i <= |s|
    ensures i <= r <= |s| && NoLineTerminator(s, i, r)
    ensures r < |s| ==> IsLineTerminator(s[r])
    decreases |s| - i
  {
    if i == |s| || IsLineTerminator(s[i]) then i else LineEnd(s, i + 1)
  }

  /** `.` reaches at least as far as a stretch without line terminators. */
  lemma LineEndReaches(s: string, i: nat, j: nat)
    requires i <= j <= |s| && NoLineTerminator(s, i, j)
    ensures j <= LineEnd(s, i)
    decreases j - i
  {
    if i < j {
      LineEndReaches(s, i + 1, j);
    }
  }

  // ---------------------------------------------------------------------------------------------
  // RE_YOUTUBE:
  //   (?:youtube\.com\/(?:[^/]+\/.+\/|(?:v|e(?:mbed)?)\/|.*[?&]v=)|youtu\.be\/)([^"&?/\s]{11})   flag i
  // The declarative predicates below say which (p, q) make `s[p..q]` match the non-capturing prefix
  // and `s[q..q+11]` the capture group.

  /** `s[r..q]` matches `[^/]+\/.+\/`. */
  ghost predicate NestedPathForm(s: string, r: int, q: int) {
    exists a :: r < a && a + 2 < q <= |s| && NoneEqual(s, r, a, '/') && s[a] == '/'
      && NoLineTerminator(s, a + 1, q - 1) && s[q - 1] == '/'
  }

  /** `s[r..q]` matches `(?:v|e(?:mbed)?)\/`. */
  predicate VideoEmbedForm(s: string, r: int, q: int) {
    || (q == r + 2 && (CiLitAt(s, r, "v/") || CiLitAt(s, r, "e/")))
    || (q == r + 6 && CiLitAt(s, r, "embed/"))
  }

  /** `s[r..q]` matches `.*[?&]v=`. */
  predicate QueryForm(s: string, r: int, q: int) {
    0 <= r && r + 3 <= q <= |s| && NoLineTerminator(s, r, q - 3)
    && (s[q - 3] == '?' || s[q - 3] == '&') && CiLitAt(s, q - 2, "v=")
  }

  /** `s[p..q]` matches the whole non-capturing prefix of RE_YOUTUBE. */
  ghost predicate PrefixForm(s: string, p: int, q: int) {
    || (CiLitAt(s, p, "youtube.com/")
        && (NestedPathForm(s, p + 12, q) || VideoEmbedForm(s, p + 12, q) || QueryForm(s, p + 12, q)))
    || (CiLitAt(s, p, "youtu.be/") && q == p + 9)
  }

  /** RE_YOUTUBE matches `s[p..q+11]`, with the capture group at `s[q..q+11]`. */
  ghost predicate MatchAt(s: string, p: int, q: int) {
    PrefixForm(s, p, q) && IdAt(s, q)
  }

  /** The largest `j` in `[lo, hi)` with a `/` at `j` and an identifier after it: the position the
      greedy `.+` backtracks to before `\/`. */
  function LastSlashBeforeId(s: string, lo: nat, hi: nat): (r: Option<nat>)
    requires hi <= |s|
    ensures r.Some? ==> lo <= r.value < hi && s[r.value] == '/' && IdAt(s, r.value + 1)
    ensures r.Some? ==> forall j :: r.value < j < hi ==> !(s[j] == '/' && IdAt(s, j + 1))
    ensures r.None? ==> forall j :: lo <= j < hi ==> !(s[j] == '/' && IdAt(s, j + 1))
    decreases hi
  {
    if hi <= lo then None
    else if s[hi - 1] == '/' && IdAt(s, hi) then Some(hi - 1)
    else LastSlashBeforeId(s, lo, hi - 1)
  }

  /** Every way `[^/]+\/.+\/` can match from `r` uses the first `/` after `r` and ends with a `/`
      that `.` can reach from there. */
  lemma NestedPathFormShape(s: string, r: nat, q: int)
    requires r <= |s| && NestedPathForm(s, r, q)
    ensures var a := FirstIndexOf(s, '/', r);
      r < a < |s| && a + 2 <= q - 1 < LineEnd(s, a + 1) && s[q - 1] == '/'
  {
    var a' :| r < a' && a' + 2 < q <= |s| && NoneEqual(s, r, a', '/') && s[a'] == '/'
      && NoLineTerminator(s, a' + 1, q - 1) && s[q - 1] == '/';
    FirstIndexOfIs(s, '/', r, a');
    LineEndReaches(s, a' + 1, q - 1);
  }

  /** Every end of `[^/]+\/.+\/` from `r` is a `/` between two past the first `/` and the line end. */
  lemma NestedPathEnds(s: string, r: nat)
    requires r <= |s|
    ensures var a := FirstIndexOf(s, '/', r);
      forall q' :: NestedPathForm(s, r, q') ==>
        r < a < |s| && a + 2 <= q' - 1 < LineEnd(s, a + 1) && s[q' - 1] == '/'
  {
    forall q' | NestedPathForm(s, r, q') ensures
      var a := FirstIndexOf(s, '/', r); r < a < |s| && a + 2 <= q' - 1 < LineEnd(s, a + 1) && s[q' - 1] == '/'
    {
      NestedPathFormShape(s, r, q');
    }
  }

  /** The first alternative, `[^/]+\/.+\/`, followed by the identifier, tried at `r`: the start of the
      identifier the engine settles on, which is the last one possible. */
  function MatchNestedPath(s: string, r: nat): (q: Option<nat>)
    requires r <= |s|
    ensures q.Some? ==> NestedPathForm(s, r, q.value) && IdAt(s, q.value)
    ensures q.Some? ==> forall q' :: q.value < q' && NestedPathForm(s, r, q') ==> !IdAt(s, q')
    ensures q.None? ==> forall q' :: NestedPathForm(s, r, q') ==> !IdAt(s, q')
  {
    var a := FirstIndexOf(s, '/', r);
    NestedPathEnds(s, r);
    if a == r || a == |s| then None
    else
      var m := LineEnd(s, a + 1);
      var found := LastSlashBeforeId(s, a + 2, m);
      if found.None? then None
      else
        var j := found.value;
        assert NestedPathForm(s, r, j + 1) by {
          assert NoLineTerminator(s, a + 1, j);
        }
        Some(j + 1)
  }

  /** `(?:v|e(?:mbed)?)\/` can end in at most one place: `v` and `e` differ, and so do `m` and `/`. */
  lemma VideoEmbedFormUnique(s: string, r: int, q1: int, q2: int)
    requires VideoEmbedForm(s, r, q1) && VideoEmbedForm(s, r, q2)
    ensures q1 == q2
  {
    if q1 != q2 {
      CiLitAtChar(s, r, "embed/", 0);
      CiLitAtChar(s, r, "embed/", 1);
      if CiLitAt(s, r, "v/") {
        CiLitAtChar(s, r, "v/", 0);
      } else {
        CiLitAtChar(s, r, "e/", 1);
      }
    }
  }

  /** The second alternative, `(?:v|e(?:mbed)?)\/`, followed by the identifier, tried at `r`. At most
      one end is possible. */
  function MatchVideoOrEmbed(s: string, r: nat): (q: Option<nat>)
    ensures q.Some? ==> VideoEmbedForm(s, r, q.value) && IdAt(s, q.value)
    ensures q.Some? ==> forall q' :: VideoEmbedForm(s, r, q') && IdAt(s, q') ==> q' == q.value
    ensures q.None? ==> forall q' :: VideoEmbedForm(s, r, q') ==> !IdAt(s, q')
  {
    assert forall q1, q2 :: VideoEmbedForm(s, r, q1) && VideoEmbedForm(s, r, q2) ==> q1 == q2 by {
      forall q1, q2 | VideoEmbedForm(s, r, q1) && VideoEmbedForm(s, r, q2) ensures q1 == q2 {
        VideoEmbedFormUnique(s, r, q1, q2);
      }
    }
    if CiLitAt(s, r, "v/") && IdAt(s, r + 2) then
      assert VideoEmbedForm(s, r, r + 2);
      Some(r + 2)
    else if CiLitAt(s, r, "embed/") && IdAt(s, r + 6) then
      assert VideoEmbedForm(s, r, r + 6);
      Some(r + 6)
    else if CiLitAt(s, r, "e/") && IdAt(s, r + 2) then
      assert VideoEmbedForm(s, r, r + 2);
      Some(r + 2)
    else None
  }

  /** `[?&]v=` starts at `j` and the identifier follows it. */
  predicate QueryMarkAt(s: string, j: int) {
    0 <= j < |s| && (s[j] == '?' || s[j] == '&') && CiLitAt(s, j + 1, "v=") && IdAt(s, j + 3)
  }

  /** The largest `j` in `[lo, hi)` where `[?&]v=` and then the identifier match: the position the
      greedy `.*` backtracks to. */
  function LastQueryBeforeId(s: string, lo: nat, hi: nat): (r: Option<nat>)
    requires hi <= |s|
    ensures r.Some? ==> lo <= r.value < hi && QueryMarkAt(s, r.value)
    ensures r.Some? ==> forall j :: r.value < j < hi ==> !QueryMarkAt(s, j)
    ensures r.None? ==> forall j :: lo <= j < hi ==> !QueryMarkAt(s, j)
    decreases hi
  {
    if hi <= lo then None
    else if QueryMarkAt(s, hi - 1) then Some(hi - 1)
    else LastQueryBeforeId(s, lo, hi - 1)
  }

  /** The third alternative, `.*[?&]v=`, followed by the identifier, tried at `r`: the start of the
      identifier the engine settles on, which is the last one possible. */
  function MatchQuery(s: string, r: nat): (q: Option<nat>)
    requires r <= |s|
    ensures q.Some? ==> QueryForm(s, r, q.value) && IdAt(s, q.value)
    ensures q.Some? ==> forall q' :: q.value < q' && QueryForm(s, r, q') ==> !IdAt(s, q')
    ensures q.None? ==> forall q' :: QueryForm(s, r, q') ==> !IdAt(s, q')
  {
    var m := LineEnd(s, r);
    var found := LastQueryBeforeId(s, r, m);
    assert forall q' :: QueryForm(s, r, q') && IdAt(s, q') ==> r <= q' - 3 < m && QueryMarkAt(s, q' - 3) by {
      forall q' | QueryForm(s, r, q') && IdAt(s, q') ensures r <= q' - 3 < m && QueryMarkAt(s, q' - 3) {
      }
    }
    if found.None? then None
    else
      var j := found.value;
      assert NoLineTerminator(s, r, j);
      Some(j + 3)
  }

  /** The capture the engine settles on when a match starts at `p`: the alternatives are tried in
      pattern order, and within the nested-path and query alternatives the greedy `.+`/`.*` makes the
      last possible identifier win. */
  ghost predicate PreferredAt(s: string, p: int, q: int) {
    if CiLitAt(s, p, "youtube.com/") then
      var r := p + 12;
      if exists q' :: NestedPathForm(s, r, q') && IdAt(s, q') then
        NestedPathForm(s, r, q) && IdAt(s, q) && forall q' :: q < q' && NestedPathForm(s, r, q') ==> !IdAt(s, q')
      else if exists q' :: VideoEmbedForm(s, r, q') && IdAt(s, q') then
        VideoEmbedForm(s, r, q) && IdAt(s, q)
      else
        QueryForm(s, r, q) && IdAt(s, q) && forall q' :: q < q' && QueryForm(s, r, q') ==> !IdAt(s, q')
    else
      CiLitAt(s, p, "youtu.be/") && q == p + 9 && IdAt(s, q)
  }

  /** The engine's choice is a match. */
  lemma PreferredIsMatch(s: string, p: int, q: int)
    requires PreferredAt(s, p, q)
    ensures MatchAt(s, p, q)
  {
  }

  /** At a given start the engine's choice is unique. */
  lemma {:induction false} PreferredUnique(s: string, p: int, q1: int, q2: int)
    requires PreferredAt(s, p, q1) && PreferredAt(s, p, q2)
    ensures q1 == q2
  {
    if CiLitAt(s, p, "youtube.com/") {
      var r := p + 12;
      if exists q' :: NestedPathForm(s, r, q') && IdAt(s, q') {
      } else if exists q' :: VideoEmbedForm(s, r, q') && IdAt(s, q') {
        VideoEmbedFormUnique(s, r, q1, q2);
      }
    }
  }

  /** `(p, q)` is the match `s.match(RE_YOUTUBE)` reports: the leftmost start where the expression
      matches, with the capture the engine settles on there. */
  ghost predicate FirstMatch(s: string, p: int, q: int) {
    PreferredAt(s, p, q) && forall p', q' :: 0 <= p' < p ==> !MatchAt(s, p', q')
  }

  /** The reported match is unique. */
  lemma FirstMatchUnique(s: string, p1: int, q1: int, p2: int, q2: int)
    requires FirstMatch(s, p1, q1) && FirstMatch(s, p2, q2)
    ensures p1 == p2 && q1 == q2
  {
    PreferredIsMatch(s, p1, q1);
    PreferredIsMatch(s, p2, q2);
    PreferredUnique(s, p1, q1, q2);
  }

  /** One attempt of RE_YOUTUBE at start position `p`, alternatives in pattern order: the start of the
      captured identifier, if any. */
  function MatchFrom(s: string, p: nat): (q: Option<nat>)
    requires p <= |s|
    ensures q.Some? ==> MatchAt(s, p, q.value)
    ensures q.None? ==> forall q' :: !MatchAt(s, p, q')
  {
    if CiLitAt(s, p, "youtube.com/") then
      assert !CiLitAt(s, p, "youtu.be/") by {
        CiLitAtChar(s, p, "youtube.com/", 5);
        if CiLitAt(s, p, "youtu.be/") { CiLitAtChar(s, p, "youtu.be/", 5); }
      }
      var r := p + 12;
      var nested := MatchNestedPath(s, r);
      if nested.Some? then nested
      else
        var embed := MatchVideoOrEmbed(s, r);
        if embed.Some? then embed
        else MatchQuery(s, r)
    else if CiLitAt(s, p, "youtu.be/") && IdAt(s, p + 9) then Some(p + 9)
    else None
  }

  /** The attempt at `p` follows the pattern order: its capture is the one the engine settles on. */
  lemma MatchFromPreferred(s: string, p: nat)
    requires p <= |s|
    ensures MatchFrom(s, p).Some? ==> PreferredAt(s, p, MatchFrom(s, p).value)
  {
  }

  /** A match needs room for at least the shorter literal and the identifier. */
  lemma MatchAtBounds(s: string, p: int, q: int)
    requires MatchAt(s, p, q)
    ensures 0 <= p && p + 9 <= q && q + 11 <= |s|
  {
  }

  /** No match starts at the end of the input or after it. */
  lemma NoMatchAtEnd(s: string)
    ensures forall p, q :: |s| <= p ==> !MatchAt(s, p, q)
  {
    forall p, q | |s| <= p && MatchAt(s, p, q) ensures false { MatchAtBounds(s, p, q); }
  }

  /** The leftmost start position at or after `p` where RE_YOUTUBE matches, with the start of its
      capture group. */
  function FindFrom(s: string, p: nat): (m: Option<(nat, nat)>)
    requires p <= |s|
    ensures m.Some? ==> p <= m.value.0 && MatchAt(s, m.value.0, m.value.1)
    ensures m.Some? ==> forall p', q' :: p <= p' < m.value.0 ==> !MatchAt(s, p', q')
    ensures m.None? ==> forall p', q' :: p <= p' ==> !MatchAt(s, p', q')
    decreases |s| - p
  {
    var here := MatchFrom(s, p);
    if here.Some? then Some((p, here.value))
    else if p == |s| then
      NoMatchAtEnd(s);
      None
    else
      var m := FindFrom(s, p + 1);
      NoMatchWidened(s, p, if m.Some? then m.value.0 else |s| + 1);
      m
  }

  /** No match at `p` and none from `p + 1` up to `b` is none from `p` up to `b`. */
  lemma NoMatchWidened(s: string, p: nat, b: nat)
    requires forall q' :: !MatchAt(s, p, q')
    requires forall p', q' :: p + 1 <= p' < b ==> !MatchAt(s, p', q')
    ensures forall p', q' :: p <= p' < b ==> !MatchAt(s, p', q')
  {
  }

  /** The match found is the one the attempt at its start returns. */
  lemma {:induction false} FindFromAttempt(s: string, p: nat)
    requires p <= |s|
    ensures FindFrom(s, p).Some? ==>
      FindFrom(s, p).value.0 <= |s| && MatchFrom(s, FindFrom(s, p).value.0) == Some(FindFrom(s, p).value.1)
    decreases |s| - p
  {
    var here := MatchFrom(s, p);
    if here.Some? {
      assert FindFrom(s, p) == Some((p, here.value));
    } else if p < |s| {
      assert FindFrom(s, p) == FindFrom(s, p + 1);
      FindFromAttempt(s, p + 1);
    }
  }

  /** `s.match(RE_YOUTUBE)`, reduced to its capture group: eleven identifier characters taken from the
      first match, or nothing when the expression matches nowhere. */
  function MatchYoutubeId(s: string): (id: Option<string>)
    ensures id.Some? ==> |id.value| == 11 && forall k :: 0 <= k < 11 ==> IsIdChar(id.value[k])
    ensures id.Some? ==> exists p: nat, q: nat :: FirstMatch(s, p, q) && id.value == s[q..q + 11]
    ensures forall p, q :: FirstMatch(s, p, q) ==> id == Some(s[q..q + 11])
    ensures id.None? <==> forall p, q :: !MatchAt(s, p, q)
  {
    match FindFrom(s, 0)
    case None =>
      forall p, q | FirstMatch(s, p, q) ensures false {
        PreferredIsMatch(s, p, q);
      }
      None
    case Some((p, q)) =>
      FindFromAttempt(s, 0);
      FoundIsFirst(s, p, q);
      Some(s[q..q + 11])
  }

  /** The leftmost start with a match, with its attempt's capture, is the reported match and the only
      one. */
  lemma FoundIsFirst(s: string, p: nat, q: nat)
    requires p <= |s| && MatchFrom(s, p) == Some(q)
    requires forall p', q' :: 0 <= p' < p ==> !MatchAt(s, p', q')
    ensures FirstMatch(s, p, q) && MatchAt(s, p, q)
    ensures forall p', q' :: FirstMatch(s, p', q') ==> p' == p && q' == q
  {
    MatchFromPreferred(s, p);
    forall p', q' | FirstMatch(s, p', q') ensures p' == p && q' == q {
      FirstMatchUnique(s, p, q, p', q');
    }
  }

  // ---------------------------------------------------------------------------------------------
  // RE_XML_TRANSCRIPT:  <text start="([^"]*)" dur="([^"]*)">([^<]*)<\/text>   flag g
  // Each class stops at the first character of the literal that follows it, so a match attempt never
  // backtracks: every class runs to the first `"` (or `<`) and the next literal must be there.

  const TEXT_OPEN: string := "<text start=\""
  const DUR_ATTR: string := "\" dur=\""
  const TAG_CLOSE: string := "\">"
  const TEXT_CLOSE: string := "</text>"

  /** The caption element with attribute values `start` and `dur` and content `text`. */
  function TextElement(start: string, dur: string, text: string): string {
    TEXT_OPEN + start + DUR_ATTR + dur + TAG_CLOSE + text + TEXT_CLOSE
  }

  /** The strings RE_XML_TRANSCRIPT's three capture groups can hold. */
  predicate CapturesWellFormed(start: string, dur: string, text: string) {
    '"' !in start && '"' !in dur && '<' !in text
  }

  /** A prefix of `s` with the four literals at the given places is a caption element whose captures
      are the stretches between them. */
  lemma ElementDecomposition(s: string, k1: nat, k2: nat, k3: nat)
    requires OccursAt(s, TEXT_OPEN, 0) && OccursAt(s, DUR_ATTR, k1) && OccursAt(s, TAG_CLOSE, k2)
    requires OccursAt(s, TEXT_CLOSE, k3)
    requires |TEXT_OPEN| <= k1 && k1 + |DUR_ATTR| <= k2 && k2 + |TAG_CLOSE| <= k3
    ensures s[..k3 + |TEXT_CLOSE|]
      == TextElement(s[|TEXT_OPEN|..k1], s[k1 + |DUR_ATTR|..k2], s[k2 + |TAG_CLOSE|..k3])
  {
    var i1, i2, i3, i4, i5, i6, i7 :=
      |TEXT_OPEN|, k1, k1 + |DUR_ATTR|, k2, k2 + |TAG_CLOSE|, k3, k3 + |TEXT_CLOSE|;
    SliceAppend(s, 0, i6, i7);
    SliceAppend(s, 0, i5, i6);
    SliceAppend(s, 0, i4, i5);
    SliceAppend(s, 0, i3, i4);
    SliceAppend(s, 0, i2, i3);
    SliceAppend(s, 0, i1, i2);
    assert s[..i1] == TEXT_OPEN;
  }

  /** One attempt of RE_XML_TRANSCRIPT at the start of `s`: the length of the match and the third
      capture group (the element's text, verbatim). */
  function MatchTextElement(s: string): (m: Option<(nat, string)>)
    ensures m.Some? ==> 0 < m.value.0 <= |s|
    ensures m.Some? ==>
      (exists start, dur :: CapturesWellFormed(start, dur, m.value.1) && s[..m.value.0] == TextElement(start, dur, m.value.1))
  {
    if !OccursAt(s, TEXT_OPEN, 0) then None
    else
      var k1 := FirstIndexOf(s, '"', |TEXT_OPEN|);
      if !OccursAt(s, DUR_ATTR, k1) then None
      else
        var k2 := FirstIndexOf(s, '"', k1 + |DUR_ATTR|);
        if !OccursAt(s, TAG_CLOSE, k2) then None
        else
          var k3 := FirstIndexOf(s, '<', k2 + |TAG_CLOSE|);
          if !OccursAt(s, TEXT_CLOSE, k3) then None
          else
            var start, dur, text := s[|TEXT_OPEN|..k1], s[k1 + |DUR_ATTR|..k2], s[k2 + |TAG_CLOSE|..k3];
            assert CapturesWellFormed(start, dur, text) by {
              assert NoneEqual(s, |TEXT_OPEN|, k1, '"');
              assert NoneEqual(s, k1 + |DUR_ATTR|, k2, '"');
              assert NoneEqual(s, k2 + |TAG_CLOSE|, k3, '<');
            }
            ElementDecomposition(s, k1, k2, k3);
            Some((k3 + |TEXT_CLOSE|, text))
  }

  /** Where the pieces of a caption element sit in a string that starts with it. */
  lemma ElementLayout(start: string, dur: string, text: string, rest: string)
    ensures var s, k1 := TextElement(start, dur, text) + rest, |TEXT_OPEN| + |start|;
      var k2 := k1 + |DUR_ATTR| + |dur|;
      var k3 := k2 + |TAG_CLOSE| + |text|;
      && k3 + |TEXT_CLOSE| == |TextElement(start, dur, text)| <= |s|
      && OccursAt(s, TEXT_OPEN, 0) && s[|TEXT_OPEN|..k1] == start
      && OccursAt(s, DUR_ATTR, k1) && s[k1 + |DUR_ATTR|..k2] == dur
      && OccursAt(s, TAG_CLOSE, k2) && s[k2 + |TAG_CLOSE|..k3] == text
      && OccursAt(s, TEXT_CLOSE, k3)
  {
    var s, k1 := TextElement(start, dur, text) + rest, |TEXT_OPEN| + |start|;
    var k2 := k1 + |DUR_ATTR| + |dur|;
    var k3 := k2 + |TAG_CLOSE| + |text|;
    assert s[..|TEXT_OPEN|] == TEXT_OPEN by { }
    assert s[|TEXT_OPEN|..k1] == start by { }
    assert s[k1..k1 + |DUR_ATTR|] == DUR_ATTR by { }
    assert s[k1 + |DUR_ATTR|..k2] == dur by { }
    assert s[k2..k2 + |TAG_CLOSE|] == TAG_CLOSE by { }
    assert s[k2 + |TAG_CLOSE|..k3] == text by { }
    assert s[k3..k3 + |TEXT_CLOSE|] == TEXT_CLOSE by { }
  }

  /** The attempt succeeds when each literal sits right where its class stops. */
  lemma MatchTextElementAt(s: string, k1: nat, k2: nat, k3: nat)
    requires OccursAt(s, TEXT_OPEN, 0)
    requires k1 <= |s| && FirstIndexOf(s, '"', |TEXT_OPEN|) == k1 && OccursAt(s, DUR_ATTR, k1)
    requires FirstIndexOf(s, '"', k1 + |DUR_ATTR|) == k2 && OccursAt(s, TAG_CLOSE, k2)
    requires FirstIndexOf(s, '<', k2 + |TAG_CLOSE|) == k3 && OccursAt(s, TEXT_CLOSE, k3)
    ensures MatchTextElement(s) == Some((k3 + |TEXT_CLOSE|, s[k2 + |TAG_CLOSE|..k3]))
  {
  }

  /** Each class of the expression stops exactly at the literal after it when the captures are
      well formed. */
  lemma ElementStops(s: string, start: string, dur: string, text: string, k1: nat, k2: nat, k3: nat)
    requires CapturesWellFormed(start, dur, text)
    requires |TEXT_OPEN| <= k1 && k1 + |DUR_ATTR| <= k2 && k2 + |TAG_CLOSE| <= k3 && k3 + |TEXT_CLOSE| <= |s|
    requires s[|TEXT_OPEN|..k1] == start && OccursAt(s, DUR_ATTR, k1)
    requires s[k1 + |DUR_ATTR|..k2] == dur && OccursAt(s, TAG_CLOSE, k2)
    requires s[k2 + |TAG_CLOSE|..k3] == text && OccursAt(s, TEXT_CLOSE, k3)
    ensures s[k1] == '"' && NoneEqual(s, |TEXT_OPEN|, k1, '"')
    ensures s[k2] == '"' && NoneEqual(s, k1 + |DUR_ATTR|, k2, '"')
    ensures s[k3] == '<' && NoneEqual(s, k2 + |TAG_CLOSE|, k3, '<')
  {
    assert s[k1..k1 + |DUR_ATTR|][0] == s[k1];
    assert s[k2..k2 + |TAG_CLOSE|][0] == s[k2];
    assert s[k3..k3 + |TEXT_CLOSE|][0] == s[k3];
    forall k | |TEXT_OPEN| <= k < k1 ensures s[k] != '"' { assert s[k] == start[k - |TEXT_OPEN|]; }
    forall k | k1 + |DUR_ATTR| <= k < k2 ensures s[k] != '"' { assert s[k] == dur[k - k1 - |DUR_ATTR|]; }
    forall k | k2 + |TAG_CLOSE| <= k < k3 ensures s[k] != '<' { assert s[k] == text[k - k2 - |TAG_CLOSE|]; }
  }

  /** The attempt succeeds on a well-formed element, whatever follows it. */
  lemma MatchTextElementOf(start: string, dur: string, text: string, rest: string)
    requires CapturesWellFormed(start, dur, text)
    ensures MatchTextElement(TextElement(start, dur, text) + rest) == Some((|TextElement(start, dur, text)|, text))
  {
    var s, k1 := TextElement(start, dur, text) + rest, |TEXT_OPEN| + |start|;
    var k2 := k1 + |DUR_ATTR| + |dur|;
    var k3 := k2 + |TAG_CLOSE| + |text|;
    ElementLayout(start, dur, text, rest);
    ElementStops(s, start, dur, text, k1, k2, k3);
    FirstIndexOfIs(s, '"', |TEXT_OPEN|, k1);
    FirstIndexOfIs(s, '"', k1 + |DUR_ATTR|, k2);
    FirstIndexOfIs(s, '<', k2 + |TAG_CLOSE|, k3);
    MatchTextElementAt(s, k1, k2, k3);
  }

  /** `[...body.matchAll(RE_XML_TRANSCRIPT)]`, keeping the third capture of each match, in order: scan
      from the left, and after a match continue where it ended. */
  function ScanTexts(s: string): (texts: seq<string>)
    ensures forall i :: 0 <= i < |texts| ==> '<' !in texts[i]
    decreases |s|
  {
    if |s| == 0 then []
    else
      match MatchTextElement(s)
      case Some((len, text)) => [text] + ScanTexts(s[len..])
      case None => ScanTexts(s[1..])
  }

  /** A caption element as the server sends it. */
  datatype CaptionElement = CaptionElement(start: string, dur: string, text: string)

  /** A caption body made of the given elements, one after another. */
  function RenderCaptions(elements: seq<CaptionElement>): string {
    if |elements| == 0 then ""
    else
      var e := elements[0];
      TextElement(e.start, e.dur, e.text) + RenderCaptions(elements[1..])
  }

  function ElementTexts(elements: seq<CaptionElement>): seq<string> {
    if |elements| == 0 then [] else [elements[0].text] + ElementTexts(elements[1..])
  }

  /** Scanning a body of well-formed elements returns their texts, verbatim and in order. */
  lemma {:induction false} ScanRenderedCaptions(elements: seq<CaptionElement>)
    requires forall i :: 0 <= i < |elements| ==>
      CapturesWellFormed(elements[i].start, elements[i].dur, elements[i].text)
    ensures ScanTexts(RenderCaptions(elements)) == ElementTexts(elements)
  {
    if |elements| > 0 {
      var e := elements[0];
      var head := TextElement(e.start, e.dur, e.text);
      var rest := RenderCaptions(elements[1..]);
      assert CapturesWellFormed(e.start, e.dur, e.text);
      MatchTextElementOf(e.start, e.dur, e.text, rest);
      assert (head + rest)[|head|..] == rest;
      ScanRenderedCaptions(elements[1..]);
    }
  }

  /** Scanning a body of well-formed elements followed by anything returns their texts, then what the
      scan of the rest returns. */
  lemma {:induction false} ScanRenderedThen(elements: seq<CaptionElement>, tail: string)
    requires forall i :: 0 <= i < |elements| ==>
      CapturesWellFormed(elements[i].start, elements[i].dur, elements[i].text)
    ensures ScanTexts(RenderCaptions(elements) + tail) == ElementTexts(elements) + ScanTexts(tail)
  {
    if |elements| > 0 {
      var e := elements[0];
      var head := TextElement(e.start, e.dur, e.text);
      var rest := RenderCaptions(elements[1..]) + tail;
      var later := ElementTexts(elements[1..]);
      assert RenderCaptions(elements) + tail == head + rest by { RenderedCons(elements, tail); }
      assert ScanTexts(head + rest) == [e.text] + ScanTexts(rest) by {
        assert CapturesWellFormed(e.start, e.dur, e.text);
        ScanElementFirst(e, rest);
      }
      assert ScanTexts(rest) == later + ScanTexts(tail) by { ScanRenderedThen(elements[1..], tail); }
      assert ElementTexts(elements) == [e.text] + later;
      AppendAssociates([e.text], later, ScanTexts(tail));
    } else {
      assert RenderCaptions(elements) + tail == tail;
    }
  }

  /** A rendered body followed by a tail is its first element followed by the rest and the tail. */
  lemma RenderedCons(elements: seq<CaptionElement>, tail: string)
    requires |elements| > 0
    ensures var e := elements[0];
      RenderCaptions(elements) + tail == TextElement(e.start, e.dur, e.text) + (RenderCaptions(elements[1..]) + tail)
  {
    var e := elements[0];
    var head, later := TextElement(e.start, e.dur, e.text), RenderCaptions(elements[1..]);
    assert RenderCaptions(elements) == head + later;
    AppendAssociates(head, later, tail);
  }

  /** A well-formed element at the front gives its text first, then the scan goes on after it. */
  lemma ScanElementFirst(e: CaptionElement, rest: string)
    requires CapturesWellFormed(e.start, e.dur, e.text)
    ensures ScanTexts(TextElement(e.start, e.dur, e.text) + rest) == [e.text] + ScanTexts(rest)
  {
    var head := TextElement(e.start, e.dur, e.text);
    MatchTextElementOf(e.start, e.dur, e.text, rest);
    assert (head + rest)[|head|..] == rest;
  }

  /** The scan passes over a stretch at the front where no element can start. */
  lemma {:induction false} ScanSkips(front: string, rest: string)
    requires forall k :: 0 <= k < |front| ==> !OccursAt(front + rest, TEXT_OPEN, k)
    ensures ScanTexts(front + rest) == ScanTexts(rest)
    decreases |front|
  {
    if |front| > 0 {
      var s := front + rest;
      assert !OccursAt(s, TEXT_OPEN, 0);
      assert s[1..] == front[1..] + rest;
      forall k | 0 <= k < |front[1..]| ensures !OccursAt(front[1..] + rest, TEXT_OPEN, k) {
        OccursInSuffix(s, TEXT_OPEN, 1, k);
      }
      ScanSkips(front[1..], rest);
    } else {
      assert front + rest == rest;
    }
  }

  /** No element starts in a stretch that ends with `>` (or is empty) and holds no `<text start="`,
      whatever follows it: an element opening that began there would have to hold that `>`. */
  lemma NoOpeningIn(front: string, rest: string)
    requires front == [] || front[|front| - 1] == '>'
    requires !Contains(front, TEXT_OPEN)
    ensures forall k :: 0 <= k < |front| ==> !OccursAt(front + rest, TEXT_OPEN, k)
  {
    var s := front + rest;
    forall k | 0 <= k < |front| ensures !OccursAt(s, TEXT_OPEN, k) {
      if k + |TEXT_OPEN| <= |front| {
        assert s[..|front|] == front;
        OccursWithin(s, TEXT_OPEN, |front|, k);
        ContainsIff(front, TEXT_OPEN, k);
      } else {
        var d := |front| - 1 - k;
        assert '>' !in TEXT_OPEN;
        assert TEXT_OPEN[d] in TEXT_OPEN;
        MismatchAt(s, TEXT_OPEN, k, d);
      }
    }
  }

  /** A caption document: a header ending with `>` (such as `<?xml …?><transcript>`), the elements,
      and a trailer (such as `</transcript>`), neither holding `<text start="`. Scanning it returns the
      elements' texts, verbatim and in order. */
  lemma ScanCaptionDocument(header: string, elements: seq<CaptionElement>, trailer: string)
    requires forall i :: 0 <= i < |elements| ==>
      CapturesWellFormed(elements[i].start, elements[i].dur, elements[i].text)
    requires header == [] || header[|header| - 1] == '>'
    requires !Contains(header, TEXT_OPEN) && !Contains(trailer, TEXT_OPEN)
    ensures ScanTexts(header + RenderCaptions(elements) + trailer) == ElementTexts(elements)
  {
    var body := RenderCaptions(elements);
    assert header + body + trailer == header + (body + trailer);
    NoOpeningIn(header, body + trailer);
    ScanSkips(header, body + trailer);
    ScanRenderedThen(elements, trailer);
    forall k | 0 <= k < |trailer| ensures !OccursAt(trailer + "", TEXT_OPEN, k) {
      assert trailer + "" == trailer;
      ContainsIff(trailer, TEXT_OPEN, k);
    }
    ScanSkips(trailer, "");
    assert trailer + "" == trailer;
    assert ScanTexts("") == [];
    assert ElementTexts(elements) + [] == ElementTexts(elements);
  }
}
