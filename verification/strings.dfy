/** The JavaScript string operations the plugin relies on (`indexOf`, `includes`, `split` with a string
    separator, `Array.prototype.join`, `replace` with a string pattern, `trim`), written out over
    `seq<char>`. */
module Strings {
  import opened Wrappers

  /** `pat` occurs in `s` starting at index `i`. */
  predicate OccursAt(s: string, pat: string, i: nat) {
    i + |pat| <= |s| && s[i..i + |pat|] == pat
  }

  /** The first index at or after `from` where `pat` occurs (`s.indexOf(pat, from)`). */
  function IndexOfFrom(s: string, pat: string, from: nat): (r: Option<nat>)
    ensures r.Some? ==> from <= r.value && OccursAt(s, pat, r.value)
    ensures r.Some? ==> forall j :: from <= j < r.value ==> !OccursAt(s, pat, j)
    ensures r.None? ==> forall j :: from <= j ==> !OccursAt(s, pat, j)
    decreases |s| - from
  {
    if from + |pat| > |s| then None
    else if OccursAt(s, pat, from) then Some(from)
    else IndexOfFrom(s, pat, from + 1)
  }

  function IndexOf(s: string, pat: string): Option<nat> {
    IndexOfFrom(s, pat, 0)
  }

  /** `s.includes(pat)`. */
  predicate Contains(s: string, pat: string) {
    IndexOf(s, pat).Some?
  }

  /** Any occurrence makes `Contains` hold; `Contains` holding yields the first occurrence. */
  lemma ContainsIff(s: string, pat: string, i: nat)
    ensures OccursAt(s, pat, i) ==> Contains(s, pat)
    ensures Contains(s, pat) ==> OccursAt(s, pat, IndexOf(s, pat).value)
  {
  }

  /** A prefix of `s` that ends before the first occurrence of `pat` does not contain `pat`. */
  lemma PrefixBeforeFirstOccurrence(s: string, pat: string, i: nat)
    requires |pat| > 0 && i <= |s|
    requires forall j :: 0 <= j < i ==> !OccursAt(s, pat, j)
    ensures !Contains(s[..i], pat)
  {
    forall j: nat | OccursAt(s[..i], pat, j)
      ensures false
    {
      assert s[..i][j..j + |pat|] == s[j..j + |pat|];
      assert OccursAt(s, pat, j);
    }
  }

  /** `s.split(sep)` for a non-empty string separator: the pieces between successive non-overlapping
      occurrences, searched from the left. */
  function SplitOn(s: string, sep: string): (parts: seq<string>)
    requires |sep| > 0
    ensures |parts| >= 1
    ensures |parts| == 1 <==> !Contains(s, sep)
    decreases |s|
  {
    var found := IndexOf(s, sep);
    if found.None? then [s]
    else [s[..found.value]] + SplitOn(s[found.value + |sep|..], sep)
  }

  /** No piece of a split contains the separator. */
  lemma {:induction false} SplitOnPiecesClean(s: string, sep: string)
    requires |sep| > 0
    ensures forall k :: 0 <= k < |SplitOn(s, sep)| ==> !Contains(SplitOn(s, sep)[k], sep)
    decreases |s|
  {
    var found := IndexOf(s, sep);
    if found.Some? {
      var i := found.value;
      PrefixBeforeFirstOccurrence(s, sep, i);
      SplitOnPiecesClean(s[i + |sep|..], sep);
    }
  }

  /** A join of two or more parts starts with the first part and a separator. */
  lemma JoinCons(parts: seq<string>, sep: string)
    requires |parts| >= 2
    ensures Join(parts, sep) == parts[0] + sep + Join(parts[1..], sep)
  {
  }

  /** The first piece of a split is the part of the string before the first separator: no separator
      starts inside it, and it ends at the end of the string or where a separator starts. */
  lemma SplitOnFirstPiece(s: string, sep: string)
    requires |sep| > 0
    ensures var piece := SplitOn(s, sep)[0];
      |piece| <= |s| && piece == s[..|piece|]
      && (forall j :: 0 <= j < |piece| ==> !OccursAt(s, sep, j))
      && (|piece| == |s| || OccursAt(s, sep, |piece|))
  {
    match IndexOf(s, sep)
    case None =>
    case Some(i) => SplitOnStep(s, sep, i);
  }

  /** Occurrences in a suffix are occurrences in the whole string, shifted by where the suffix starts. */
  lemma OccursInSuffix(s: string, pat: string, d: nat, j: nat)
    requires d <= |s|
    ensures OccursAt(s[d..], pat, j) <==> OccursAt(s, pat, d + j)
  {
    if d + j + |pat| <= |s| {
      assert s[d..][j..j + |pat|] == s[d + j..d + j + |pat|];
    }
  }

  /** Concatenation is associative. */
  lemma AppendAssociates<T>(a: seq<T>, b: seq<T>, c: seq<T>)
    ensures (a + b) + c == a + (b + c)
  {
  }

  /** A slice of `s` is the slice up to any index between its ends followed by the slice from it. */
  lemma SliceAppend<T>(s: seq<T>, a: nat, b: nat, c: nat)
    requires a <= b <= c <= |s|
    ensures s[a..c] == s[a..b] + s[b..c]
  {
  }

  /** An occurrence inside a prefix is an occurrence in the whole string. */
  lemma ContainsInPrefix(s: string, pat: string, i: nat)
    requires i <= |s| && Contains(s[..i], pat)
    ensures Contains(s, pat)
  {
    var j := IndexOf(s[..i], pat).value;
    ContainsIff(s[..i], pat, j);
    assert s[..i][j..j + |pat|] == s[j..j + |pat|];
    ContainsIff(s, pat, j);
  }

  /** `piece` is the slice of `s` at `start`: no `sep1` starts inside it, and it ends at the end of
      `s` or where `sep1` or `sep2` starts. */
  predicate CutAt(s: string, start: nat, piece: string, sep1: string, sep2: string) {
    start + |piece| <= |s| && piece == s[start..start + |piece|]
    && (forall j :: start <= j < start + |piece| ==> !OccursAt(s, sep1, j))
    && (start + |piece| == |s| || OccursAt(s, sep1, start + |piece|) || OccursAt(s, sep2, start + |piece|))
  }

  /** Where the first piece at `sep2` of the first piece at `sep1` of `s[start..]` lies in `s`: it
      starts at `start`, no `sep1` starts inside it, and it ends at the end of `s` or where `sep1` or
      `sep2` starts. */
  lemma SplitPiecePlace(s: string, start: nat, sep1: string, sep2: string)
    requires start <= |s| && |sep1| > 0 && |sep2| > 0
    ensures CutAt(s, start, SplitOn(SplitOn(s[start..], sep1)[0], sep2)[0], sep1, sep2)
  {
    var rest := s[start..];
    var outer := SplitOn(rest, sep1)[0];
    SplitOnFirstPiece(rest, sep1);
    SplitOnFirstPiece(outer, sep2);
    PieceOfPiece(rest, outer, SplitOn(outer, sep2)[0], sep1, sep2);
    PieceShifted(s, start, SplitOn(outer, sep2)[0], sep1, sep2);
  }

  /** A prefix of `outer` ending at the end of `outer` or at a `sep2`, where `outer` is a prefix of
      `rest` free of `sep1` ending at the end of `rest` or at a `sep1`, is such a prefix of `rest`
      ending at the end, at a `sep1` or at a `sep2`. */
  lemma PieceOfPiece(rest: string, outer: string, piece: string, sep1: string, sep2: string)
    requires |outer| <= |rest| && outer == rest[..|outer|]
    requires forall j :: 0 <= j < |outer| ==> !OccursAt(rest, sep1, j)
    requires |outer| == |rest| || OccursAt(rest, sep1, |outer|)
    requires |piece| <= |outer| && piece == outer[..|piece|]
    requires |piece| == |outer| || OccursAt(outer, sep2, |piece|)
    ensures |piece| <= |rest| && piece == rest[..|piece|]
    ensures forall j :: 0 <= j < |piece| ==> !OccursAt(rest, sep1, j)
    ensures |piece| == |rest| || OccursAt(rest, sep1, |piece|) || OccursAt(rest, sep2, |piece|)
  {
    if |piece| < |outer| {
      OccursWithin(rest, sep2, |outer|, |piece|);
    }
  }

  /** Facts about a prefix of `s[start..]` restated at their place in `s`. */
  lemma PieceShifted(s: string, start: nat, piece: string, sep1: string, sep2: string)
    requires start <= |s|
    requires |piece| <= |s[start..]| && piece == s[start..][..|piece|]
    requires forall j :: 0 <= j < |piece| ==> !OccursAt(s[start..], sep1, j)
    requires |piece| == |s[start..]| || OccursAt(s[start..], sep1, |piece|) || OccursAt(s[start..], sep2, |piece|)
    ensures CutAt(s, start, piece, sep1, sep2)
  {
    forall j | start <= j < start + |piece| ensures !OccursAt(s, sep1, j) {
      OccursInSuffix(s, sep1, start, j - start);
    }
    if |piece| < |s[start..]| {
      OccursInSuffix(s, sep1, start, |piece|);
      OccursInSuffix(s, sep2, start, |piece|);
    }
  }

  /** `s.split(sep1)[1].split(sep2)[0]`: the stretch after the first `sep1`, up to the next `sep1` or
      the first `sep2` after it, whichever comes first, or the end. It contains neither separator. */
  lemma SecondPieceCut(s: string, sep1: string, sep2: string)
    requires |sep1| > 0 && |sep2| > 0 && Contains(s, sep1)
    ensures var start := IndexOf(s, sep1).value + |sep1|;
      var piece := SplitOn(SplitOn(s, sep1)[1], sep2)[0];
      CutAt(s, start, piece, sep1, sep2) && !Contains(piece, sep1) && !Contains(piece, sep2)
  {
    var i := IndexOf(s, sep1).value;
    var piece := SplitOn(SplitOn(s, sep1)[1], sep2)[0];
    SecondPart(s, sep1, i);
    SplitPiecePlace(s, i + |sep1|, sep1, sep2);
    assert piece == SplitOn(SplitOn(s[i + |sep1|..], sep1)[0], sep2)[0];
    assert CutAt(s, i + |sep1|, piece, sep1, sep2);
    SecondPieceClean(s, sep1, sep2);
  }

  /** The second piece of a split is the first piece of the split of what follows the first separator. */
  lemma SecondPart(s: string, sep: string, i: nat)
    requires |sep| > 0 && IndexOf(s, sep) == Some(i)
    ensures |SplitOn(s, sep)| >= 2 && SplitOn(s, sep)[1] == SplitOn(s[i + |sep|..], sep)[0]
  {
    SplitOnStep(s, sep, i);
  }

  /** `s.split(sep1)[1].split(sep2)[0]` contains neither separator. */
  lemma SecondPieceClean(s: string, sep1: string, sep2: string)
    requires |sep1| > 0 && |sep2| > 0 && Contains(s, sep1)
    ensures var piece := SplitOn(SplitOn(s, sep1)[1], sep2)[0];
      !Contains(piece, sep1) && !Contains(piece, sep2)
  {
    var part := SplitOn(s, sep1)[1];
    SplitOnPiecesClean(s, sep1);
    SplitOnPiecesClean(part, sep2);
    PrefixClean(part, SplitOn(part, sep2)[0], sep1);
  }

  /** A prefix of a string free of `pat` is free of `pat`. */
  lemma PrefixClean(s: string, piece: string, pat: string)
    requires !Contains(s, pat) && |piece| <= |s| && piece == s[..|piece|]
    ensures !Contains(piece, pat)
  {
    if Contains(piece, pat) {
      ContainsInPrefix(s, pat, |piece|);
    }
  }

  /** No proper suffix of `pat` is also a prefix of it, so two occurrences of `pat` cannot overlap. */
  predicate Unbordered(pat: string) {
    forall d :: 0 < d < |pat| ==> pat[d..] != pat[..|pat| - d]
  }

  /** A character that differs from the pattern rules out an occurrence. */
  lemma MismatchAt(s: string, pat: string, n: nat, k: nat)
    requires k < |pat| && n + k < |s| && s[n + k] != pat[k]
    ensures !OccursAt(s, pat, n)
  {
    if n + |pat| <= |s| {
      assert s[n..n + |pat|][k] == s[n + k];
    }
  }

  /** An occurrence that ends within the first `n` characters is an occurrence in `s[..n]`. */
  lemma OccursWithin(s: string, pat: string, n: nat, j: nat)
    requires j + |pat| <= n <= |s|
    ensures OccursAt(s[..n], pat, j) <==> OccursAt(s, pat, j)
  {
    assert s[..n][j..j + |pat|] == s[j..j + |pat|];
  }

  /** In `a + pat + b`, with `pat` absent from `a` and unable to overlap itself, the first occurrence of
      `pat` is the one right after `a`. */
  lemma FirstOccurrenceAfter(a: string, pat: string, b: string)
    requires |pat| > 0 && !Contains(a, pat) && Unbordered(pat)
    ensures IndexOf(a + pat + b, pat) == Some(|a|)
  {
    var s := a + pat + b;
    assert OccursAt(s, pat, |a|) by { assert s[|a|..|a| + |pat|] == pat; }
    forall j: nat | j < |a| ensures !OccursAt(s, pat, j) {
      if j + |pat| <= |a| {
        assert s[..|a|] == a;
        OccursWithin(s, pat, |a|, j);
        ContainsIff(a, pat, j);
      } else {
        var d := |a| - j;
        assert pat[d..] != pat[..|pat| - d];
        var m :| 0 <= m < |pat| - d && pat[d..][m] != pat[..|pat| - d][m];
        assert s[|a| + m] == pat[m];
        MismatchAt(s, pat, j, d + m);
      }
    }
  }

  /** `s.split(sep1)[1].split(sep2)[0]` of `a + sep1 + body + sep2 + tail` is `body`, when `a` and `body`
      hold no `sep1`, `body` holds no `sep2`, and the separators cannot overlap each other across the
      joins: `sep1` does not overlap itself and holds no first character of `sep2`, `sep2` does not
      repeat its first character, and `sep1` cannot start inside `sep2`. */
  lemma SecondPieceOf(a: string, sep1: string, body: string, sep2: string, tail: string)
    requires |sep1| > 1 && |sep2| > 0
    requires !Contains(a, sep1) && Unbordered(sep1)
    requires !Contains(body, sep1) && !Contains(body, sep2)
    requires forall k :: 0 <= k < |sep1| ==> sep1[k] != sep2[0]
    requires forall d :: 0 < d < |sep2| ==> sep2[d] != sep2[0]
    requires forall d :: 0 < d < |sep2| && sep2[d] == sep1[0] ==> d + 1 < |sep2| && sep2[d + 1] != sep1[1]
    ensures var s := a + sep1 + body + sep2 + tail;
      |SplitOn(s, sep1)| >= 2 && SplitOn(SplitOn(s, sep1)[1], sep2)[0] == body
  {
    var rest := body + sep2 + tail;
    assert a + sep1 + body + sep2 + tail == a + sep1 + rest;
    CutAfterFirst(a, sep1, rest, sep2);
    var n := |SplitOn(SplitOn(a + sep1 + rest, sep1)[1], sep2)[0]|;
    PieceNotShort(body, sep1, sep2, tail, n);
    PieceNotLong(body, sep1, sep2, tail, n);
    assert rest[..|body|] == body;
  }

  /** `(a + sep1 + rest).split(sep1)[1].split(sep2)[0]`, for `a` without `sep1`, is a prefix of `rest`
      without `sep2` that ends at the end of `rest` or where a separator starts. */
  lemma CutAfterFirst(a: string, sep1: string, rest: string, sep2: string)
    requires |sep1| > 0 && |sep2| > 0 && !Contains(a, sep1) && Unbordered(sep1)
    ensures var s := a + sep1 + rest;
      |SplitOn(s, sep1)| >= 2 &&
      var piece := SplitOn(SplitOn(s, sep1)[1], sep2)[0];
      && |piece| <= |rest| && piece == rest[..|piece|] && !Contains(piece, sep2)
      && (|piece| == |rest| || OccursAt(rest, sep1, |piece|) || OccursAt(rest, sep2, |piece|))
  {
    var s := a + sep1 + rest;
    FirstOccurrenceAfter(a, sep1, rest);
    assert s[|a| + |sep1|..] == rest;
    CutFromStart(s, sep1, rest, sep2);
  }

  /** `s.split(sep1)[1].split(sep2)[0]`, where `rest` is what follows the first `sep1`, is a prefix of
      `rest` without `sep2` that ends at the end of `rest` or where a separator starts. */
  lemma CutFromStart(s: string, sep1: string, rest: string, sep2: string)
    requires |sep1| > 0 && |sep2| > 0 && Contains(s, sep1)
    requires IndexOf(s, sep1).value + |sep1| <= |s| && s[IndexOf(s, sep1).value + |sep1|..] == rest
    ensures |SplitOn(s, sep1)| >= 2 &&
      var piece := SplitOn(SplitOn(s, sep1)[1], sep2)[0];
      && |piece| <= |rest| && piece == rest[..|piece|] && !Contains(piece, sep2)
      && (|piece| == |rest| || OccursAt(rest, sep1, |piece|) || OccursAt(rest, sep2, |piece|))
  {
    SecondPieceCut(s, sep1, sep2);
    PieceInRest(s, IndexOf(s, sep1).value + |sep1|, rest, sep1, sep2, SplitOn(SplitOn(s, sep1)[1], sep2)[0]);
  }

  /** The facts about a piece of `s` that starts at `start` carried over to `rest`, the part of `s`
      from `start` on. */
  lemma PieceInRest(s: string, start: nat, rest: string, sep1: string, sep2: string, piece: string)
    requires start + |rest| == |s| && s[start..] == rest && CutAt(s, start, piece, sep1, sep2)
    ensures |piece| <= |rest| && piece == rest[..|piece|]
    ensures |piece| == |rest| || OccursAt(rest, sep1, |piece|) || OccursAt(rest, sep2, |piece|)
  {
    OccursInSuffix(s, sep1, start, |piece|);
    OccursInSuffix(s, sep2, start, |piece|);
  }

  /** Inside `body`, in `body + sep2 + tail`, the string does not end and neither separator starts. */
  lemma PieceNotShort(body: string, sep1: string, sep2: string, tail: string, n: nat)
    requires |sep2| > 0 && n <= |body + sep2 + tail|
    requires !Contains(body, sep1) && !Contains(body, sep2)
    requires forall k :: 0 <= k < |sep1| ==> sep1[k] != sep2[0]
    requires forall d :: 0 < d < |sep2| ==> sep2[d] != sep2[0]
    ensures var rest := body + sep2 + tail;
      n < |body| ==> n < |rest| && !OccursAt(rest, sep1, n) && !OccursAt(rest, sep2, n)
  {
    var rest := body + sep2 + tail;
    var b := |body|;
    if n < b {
      assert rest[..b] == body;
      assert rest[b] == sep2[0];
      if n + |sep1| <= b {
        OccursWithin(rest, sep1, b, n);
        ContainsIff(body, sep1, n);
      } else {
        MismatchAt(rest, sep1, n, b - n);
      }
      if n + |sep2| <= b {
        OccursWithin(rest, sep2, b, n);
        ContainsIff(body, sep2, n);
      } else {
        MismatchAt(rest, sep2, n, b - n);
      }
    }
  }

  /** A prefix of `body + sep2 + tail` longer than `body` and without `sep2` ends where the string does
      not end and neither separator starts. */
  lemma PieceNotLong(body: string, sep1: string, sep2: string, tail: string, n: nat)
    requires |sep1| > 1 && |sep2| > 0 && n <= |body + sep2 + tail|
    requires !Contains((body + sep2 + tail)[..n], sep2)
    requires forall d :: 0 < d < |sep2| ==> sep2[d] != sep2[0]
    requires forall d :: 0 < d < |sep2| && sep2[d] == sep1[0] ==> d + 1 < |sep2| && sep2[d + 1] != sep1[1]
    ensures var rest := body + sep2 + tail;
      |body| < n ==> n < |rest| && !OccursAt(rest, sep1, n) && !OccursAt(rest, sep2, n)
  {
    var rest := body + sep2 + tail;
    var b := |body|;
    if b < n {
      PieceHoldsNoSep(body, sep2, tail, n);
      var d := n - b;
      assert rest[n] == sep2[d];
      MismatchAt(rest, sep2, n, 0);
      if sep2[d] != sep1[0] {
        MismatchAt(rest, sep1, n, 0);
      } else {
        assert rest[n + 1] == sep2[d + 1];
        MismatchAt(rest, sep1, n, 1);
      }
    }
  }

  /** A prefix of `body + sep + tail` without `sep` ends before that copy of `sep` does. */
  lemma PieceHoldsNoSep(body: string, sep: string, tail: string, n: nat)
    requires n <= |body + sep + tail| && !Contains((body + sep + tail)[..n], sep)
    ensures n < |body| + |sep|
  {
    var rest := body + sep + tail;
    if |body| + |sep| <= n {
      assert rest[..n][|body|..|body| + |sep|] == sep;
      ContainsIff(rest[..n], sep, |body|);
    }
  }

  /** `parts.join(sep)`. */
  function Join(parts: seq<string>, sep: string): string {
    if |parts| == 0 then ""
    else if |parts| == 1 then parts[0]
    else parts[0] + sep + Join(parts[1..], sep)
  }

  /** One step of a split: the piece before the first occurrence, then the split of the rest. */
  lemma SplitOnStep(s: string, sep: string, i: nat)
    requires |sep| > 0 && IndexOf(s, sep) == Some(i)
    ensures SplitOn(s, sep) == [s[..i]] + SplitOn(s[i + |sep|..], sep)
    ensures s == s[..i] + sep + s[i + |sep|..]
  {
    assert OccursAt(s, sep, i);
    ThreeWaySplit(s, i, i + |sep|);
  }

  /** A sequence is its part before `i`, its part from `i` to `j` and its part from `j` on. */
  lemma ThreeWaySplit<T>(s: seq<T>, i: nat, j: nat)
    requires i <= j <= |s|
    ensures s == s[..i] + s[i..j] + s[j..]
  {
  }

  /** Joining the pieces of a split with the same separator gives back the string. */
  lemma {:induction false} JoinSplitOn(s: string, sep: string)
    requires |sep| > 0
    ensures Join(SplitOn(s, sep), sep) == s
    decreases |s|
  {
    var found := IndexOf(s, sep);
    if found.Some? {
      var i := found.value;
      var rest := s[i + |sep|..];
      var tail := SplitOn(rest, sep);
      SplitOnStep(s, sep, i);
      JoinSplitOn(rest, sep);
      var parts := [s[..i]] + tail;
      assert parts[1..] == tail;
    }
  }

  /** Joining two non-empty lists puts one separator between their joins. */
  lemma {:induction false} JoinAppend(a: seq<string>, b: seq<string>, sep: string)
    requires |a| > 0 && |b| > 0
    ensures Join(a + b, sep) == Join(a, sep) + sep + Join(b, sep)
    decreases |a|
  {
    if |a| == 1 {
      assert (a + b)[1..] == b;
    } else {
      JoinAppend(a[1..], b, sep);
      assert (a + b)[1..] == a[1..] + b;
    }
  }

  /** `s.replace(pat, rep)` with a string pattern: only the first occurrence is replaced. */
  function ReplaceFirst(s: string, pat: string, rep: string): (r: string)
    requires |pat| > 0
    ensures !Contains(s, pat) ==> r == s
    ensures Contains(s, pat) ==> |r| == |s| - |pat| + |rep|
  {
    match IndexOf(s, pat)
    case None => s
    case Some(i) => s[..i] + rep + s[i + |pat|..]
  }

  /** The first occurrence of `pat` in `a + pat + b` is the one right after `a`, when `a` does not
      contain it and the first character of `pat` does not recur inside `pat`. Then the first-occurrence
      replacement cuts exactly that copy out. */
  lemma ReplaceFirstAfterClean(a: string, pat: string, b: string, rep: string)
    requires |pat| > 0 && !Contains(a, pat)
    requires forall d :: 0 < d < |pat| ==> pat[d] != pat[0]
    ensures ReplaceFirst(a + pat + b, pat, rep) == a + rep + b
  {
    var s := a + pat + b;
    assert OccursAt(s, pat, |a|) by { assert s[|a|..|a| + |pat|] == pat; }
    forall j: nat | j < |a| && OccursAt(s, pat, j)
      ensures false
    {
      if j + |pat| <= |a| {
        assert a[j..j + |pat|] == s[j..j + |pat|];
        assert OccursAt(a, pat, j);
      } else {
        OverlappingOccurrences(s, pat, j, |a|);
      }
    }
    assert IndexOf(s, pat) == Some(|a|);
    assert s[..|a|] == a;
    assert s[|a| + |pat|..] == b;
  }

  /** Two occurrences of `pat` that overlap force a character of `pat` to equal its first. */
  lemma OverlappingOccurrences(s: string, pat: string, j: nat, k: nat)
    requires OccursAt(s, pat, j) && OccursAt(s, pat, k) && j < k < j + |pat|
    ensures pat[k - j] == pat[0]
  {
    assert s[j..j + |pat|][k - j] == s[k];
    assert s[k..k + |pat|][0] == s[k];
  }

  /** ECMAScript LineTerminator: what `.` in a regular expression does not match. */
  predicate IsLineTerminator(c: char) {
    c == '\n' || c == '\r' || c == '\U{2028}' || c == '\U{2029}'
  }

  /** ECMAScript WhiteSpace or LineTerminator: what `\s` matches and what `trim` removes. */
  predicate IsJsWhitespace(c: char) {
    || c == '\t' || c == '\U{000B}' || c == '\U{000C}' || c == ' ' || c == '\U{00A0}' || c == '\U{FEFF}'
    || c == '\U{1680}' || ('\U{2000}' <= c <= '\U{200A}') || c == '\U{202F}' || c == '\U{205F}'
    || c == '\U{3000}'
    || IsLineTerminator(c)
  }

  /** `r` is `s[i..i+|r|]` and every character of `s` outside it is whitespace. */
  predicate WhitespaceAround(s: string, i: int, r: string) {
    0 <= i <= |s| - |r| && r == s[i..i + |r|]
    && (forall k :: 0 <= k < i ==> IsJsWhitespace(s[k]))
    && (forall k :: i + |r| <= k < |s| ==> IsJsWhitespace(s[k]))
  }

  /** `s` with its leading whitespace removed. */
  function TrimStart(s: string): (r: string)
    ensures WhitespaceAround(s, |s| - |r|, r)
    ensures r == [] || !IsJsWhitespace(r[0])
  {
    if |s| > 0 && IsJsWhitespace(s[0]) then
      var r := TrimStart(s[1..]);
      AroundAfter(s, |s| - 1 - |r|, r);
      r
    else s
  }

  /** `s` with its trailing whitespace removed. */
  function TrimEnd(s: string): (r: string)
    ensures WhitespaceAround(s, 0, r)
    ensures r == [] || !IsJsWhitespace(r[|r| - 1])
  {
    if |s| > 0 && IsJsWhitespace(s[|s| - 1]) then
      var r := TrimEnd(s[..|s| - 1]);
      AroundBefore(s, r);
      r
    else s
  }

  /** White space around a slice of `s[1..]`, when `s[0]` is white space too, surrounds it in `s`. */
  lemma AroundAfter(s: string, i: int, r: string)
    requires |s| > 0 && IsJsWhitespace(s[0]) && WhitespaceAround(s[1..], i, r)
    ensures WhitespaceAround(s, i + 1, r)
  {
    assert s[i + 1..i + 1 + |r|] == s[1..][i..i + |r|];
    forall k | 0 <= k < i + 1 ensures IsJsWhitespace(s[k]) {
      if k > 0 { assert s[k] == s[1..][k - 1]; }
    }
    forall k | i + 1 + |r| <= k < |s| ensures IsJsWhitespace(s[k]) {
      assert s[k] == s[1..][k - 1];
    }
  }

  /** White space after a prefix of `s[..|s|-1]`, when the last character is white space too,
      follows it in `s`. */
  lemma AroundBefore(s: string, r: string)
    requires |s| > 0 && IsJsWhitespace(s[|s| - 1]) && WhitespaceAround(s[..|s| - 1], 0, r)
    ensures WhitespaceAround(s, 0, r)
  {
    assert s[..|r|] == s[..|s| - 1][..|r|];
    forall k | |r| <= k < |s| ensures IsJsWhitespace(s[k]) {
      if k < |s| - 1 { assert s[k] == s[..|s| - 1][k]; }
    }
  }

  /** `s.trim()`. */
  function Trim(s: string): (r: string)
    ensures r == [] || (!IsJsWhitespace(r[0]) && !IsJsWhitespace(r[|r| - 1]))
    ensures exists i :: WhitespaceAround(s, i, r)
  {
    var t := TrimStart(s);
    var r := TrimEnd(t);
    AroundNested(s, |s| - |t|, t, r);
    r
  }

  /** A prefix of `t` followed only by white space, where `t` has white space around it in `s`,
      has white space around it in `s`, and starts where `t` does. */
  lemma AroundNested(s: string, i: int, t: string, r: string)
    requires WhitespaceAround(s, i, t) && WhitespaceAround(t, 0, r)
    ensures WhitespaceAround(s, i, r)
    ensures r == [] || r[0] == t[0]
  {
    assert r == t[..|r|];
    assert s[i..i + |r|] == s[i..i + |t|][..|r|];
    forall k | i + |r| <= k < |s| ensures IsJsWhitespace(s[k]) {
      if k < i + |t| { assert s[k] == t[k - i]; }
    }
  }

  /** Trimming twice is trimming once. */
  lemma TrimIdempotent(s: string)
    ensures Trim(Trim(s)) == Trim(s)
  {
    var t := Trim(s);
    assert TrimStart(t) == t;
    assert TrimEnd(t) == t;
  }
}
