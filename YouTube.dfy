// The YouTube identifier rules of the Video model (web/models.py):
// extract_youtube_id, the field rule applied by Video.save, and the
// embed and thumbnail URLs derived from a stored identifier.
//
// `re.search(pattern, url)` is modelled literally: the leftmost start
// position at which the pattern matches, with Python's backtracking order
// inside the pattern (alternatives tried left to right, `.*` greedy and
// stopping at a newline).

module YouTube {
  import opened Common

  const IdLength: nat := 11

  /** One character of the class [a-zA-Z0-9_-]. */
  predicate IsIdChar(c: char) {
    ('a' <= c <= 'z') || ('A' <= c <= 'Z') || ('0' <= c <= '9') || c == '_' || c == '-'
  }

  /** Exactly eleven characters of [a-zA-Z0-9_-]. */
  predicate IsVideoId(s: string) {
    |s| == IdLength && forall i :: 0 <= i < |s| ==> IsIdChar(s[i])
  }

  /** The literal `lit` occurs in `s` at position `i`. */
  predicate LiteralAt(s: string, i: nat, lit: string) {
    i + |lit| <= |s| && s[i..i + |lit|] == lit
  }

  /** `[a-zA-Z0-9_-]{11}` matches in `s` at position `j`. */
  predicate TokenAt(s: string, j: nat) {
    j + IdLength <= |s| && IsVideoId(s[j..j + IdLength])
  }

  const WatchPrefix: string := "youtube.com/watch?v="
  const ShortPrefix: string := "youtu.be/"
  const EmbedPrefix: string := "youtube.com/embed/"
  const WatchQuery: string := "youtube.com/watch?"
  const VParam: string := "v="

  /** A pattern of extract_youtube_id: an alternation of literal prefixes
      each followed by the captured token, or
      `youtube\.com/watch\?.*v=` followed by the captured token. */
  datatype Pattern = Prefixed(alternatives: seq<string>) | WatchQueryAnyV

  /** The four patterns, in the order the source tries them. */
  const Patterns: seq<Pattern> := [
    Prefixed([WatchPrefix, ShortPrefix, EmbedPrefix]),
    WatchQueryAnyV,
    Prefixed([ShortPrefix]),
    Prefixed([EmbedPrefix])
  ]

  /** Start of the captured group when an alternation is tried at `i`:
      the first alternative, in order, that matches together with its token. */
  function AltCapture(s: string, i: nat, alts: seq<string>): (r: Option<nat>)
    ensures r.Some? ==> TokenAt(s, r.value)
  {
    if alts == [] then None
    else if LiteralAt(s, i, alts[0]) && TokenAt(s, i + |alts[0]|) then Some(i + |alts[0]|)
    else AltCapture(s, i, alts[1..])
  }

  /** The alternation matches at `i` exactly when one of its alternatives does. */
  lemma {:induction false} AltCaptureSome(s: string, i: nat, alts: seq<string>)
    ensures AltCapture(s, i, alts).Some? <==> exists k :: 0 <= k < |alts| && LiteralAt(s, i, alts[k]) && TokenAt(s, i + |alts[k]|)
  {
    if alts != [] {
      AltCaptureSome(s, i, alts[1..]);
      assert forall k :: 1 <= k < |alts| ==> alts[k] == alts[1..][k - 1];
    }
  }

  /** The furthest `.` (any character but a newline) can reach from `j`:
      the first newline at or after `j`, or the end of `s`. */
  function LineEnd(s: string, j: nat): (e: nat)
    requires j <= |s|
    ensures j <= e <= |s|
    ensures forall k :: j <= k < e ==> s[k] != '\n'
    ensures e < |s| ==> s[e] == '\n'
    decreases |s| - j
  {
    if j == |s| || s[j] == '\n' then j else LineEnd(s, j + 1)
  }

  /** `v=` followed by a token, at position `j`. */
  predicate VTokenAt(s: string, j: nat) {
    LiteralAt(s, j, VParam) && TokenAt(s, j + |VParam|)
  }

  /** Greedy `.*` backtracking: the largest `j` in [lo, hi] where `v=` and a token follow. */
  function LastV(s: string, lo: nat, hi: nat): (r: Option<nat>)
    requires lo <= hi
    ensures r.Some? ==> lo <= r.value <= hi && VTokenAt(s, r.value)
    ensures r.Some? ==> forall k :: r.value < k <= hi ==> !VTokenAt(s, k)
    ensures r.None? ==> forall k :: lo <= k <= hi ==> !VTokenAt(s, k)
    decreases hi - lo
  {
    if VTokenAt(s, hi) then Some(hi)
    else if hi == lo then None
    else LastV(s, lo, hi - 1)
  }

  /** Start of the captured group when `youtube\.com/watch\?.*v=(token)` is tried at `i`. */
  function WatchQueryCapture(s: string, i: nat): (r: Option<nat>)
    ensures r.Some? ==> TokenAt(s, r.value)
  {
    if !LiteralAt(s, i, WatchQuery) then None
    else
      var start := i + |WatchQuery|;
      match LastV(s, start, LineEnd(s, start))
      case Some(j) => Some(j + |VParam|)
      case None => None
  }

  function CaptureAt(p: Pattern, s: string, i: nat): (r: Option<nat>)
    ensures r.Some? ==> TokenAt(s, r.value)
  {
    match p
    case Prefixed(alts) => AltCapture(s, i, alts)
    case WatchQueryAnyV => WatchQueryCapture(s, i)
  }

  /** `re.search(p, s)` from position `i` on: group 1 of the leftmost match. */
  function SearchFrom(p: Pattern, s: string, i: nat): (r: Option<string>)
    ensures r.Some? ==> IsVideoId(r.value)
    decreases |s| + 1 - i
  {
    if i > |s| then None
    else match CaptureAt(p, s, i)
      case Some(j) => Some(s[j..j + IdLength])
      case None => SearchFrom(p, s, i + 1)
  }

  function Search(p: Pattern, s: string): Option<string> {
    SearchFrom(p, s, 0)
  }

  /** A successful search comes from the leftmost position, from `i` on,
      where the pattern matches, and returns that match's capture. */
  lemma {:induction false} SearchWitness(p: Pattern, s: string, i: nat) returns (j: nat)
    requires SearchFrom(p, s, i).Some?
    ensures i <= j <= |s| && CaptureAt(p, s, j).Some?
    ensures forall k :: i <= k < j ==> CaptureAt(p, s, k).None?
    ensures SearchFrom(p, s, i).value == s[CaptureAt(p, s, j).value..CaptureAt(p, s, j).value + IdLength]
    decreases |s| + 1 - i
  {
    if CaptureAt(p, s, i).Some? {
      j := i;
    } else {
      j := SearchWitness(p, s, i + 1);
    }
  }

  /** A position where the pattern matches makes the search succeed. */
  lemma {:induction false} SearchFinds(p: Pattern, s: string, i: nat, j: nat)
    requires i <= j <= |s| && CaptureAt(p, s, j).Some?
    ensures SearchFrom(p, s, i).Some?
    decreases j - i
  {
    if i < j && CaptureAt(p, s, i).None? {
      SearchFinds(p, s, i + 1, j);
    }
  }

  /** The token of the first pattern in `ps` that matches anywhere in `s`. */
  function FirstMatch(ps: seq<Pattern>, s: string): (r: Option<string>)
    ensures r.Some? ==> IsVideoId(r.value)
    ensures r.None? <==> forall k :: 0 <= k < |ps| ==> Search(ps[k], s).None?
  {
    if ps == [] then None
    else match Search(ps[0], s)
      case Some(t) => Some(t)
      case None =>
        var r := FirstMatch(ps[1..], s);
        assert forall k :: 1 <= k < |ps| ==> ps[k] == ps[1..][k - 1];
        r
  }

  /** extract_youtube_id: the identifier a stored URL stands for, or "" when
      there is none. The final fallback accepts the whole input only when it
      is itself an identifier (see FallbackAsWritten for the regex as written). */
  function Extract(url: Option<string>): (id: string)
    ensures id == "" || IsVideoId(id)
    ensures id == "" <==> !Given(url) || (FirstMatch(Patterns, url.value).None? && !IsVideoId(url.value))
    ensures Given(url) && FirstMatch(Patterns, url.value).Some? ==> id == FirstMatch(Patterns, url.value).value
    ensures Given(url) && FirstMatch(Patterns, url.value).None? && IsVideoId(url.value) ==> id == url.value
  {
    if !Given(url) then ""
    else match FirstMatch(Patterns, url.value)
      case Some(t) => t
      case None => if IsVideoId(url.value) then url.value else ""
  }

  /** extract_youtube_id as a loop over the pattern list with an early return. */
  method ExtractYouTubeId(url: Option<string>) returns (id: string)
    ensures id == Extract(url)
  {
    if !Given(url) {
      return "";
    }
    var s := url.value;
    var k := 0;
    while k < |Patterns|
      invariant 0 <= k <= |Patterns|
      invariant FirstMatch(Patterns, s) == FirstMatch(Patterns[k..], s)
    {
      var m := Search(Patterns[k], s);
      if m.Some? {
        return m.value;
      }
      assert Patterns[k..][1..] == Patterns[k + 1..];
      k := k + 1;
    }
    if IsVideoId(s) {
      return s;
    }
    return "";
  }

  // ---------------------------------------------------------------------
  // Facts about the search
  // ---------------------------------------------------------------------

  /** Every literal of `p` starts with 'y', so `p` can only match where `s` has a 'y'. */
  predicate StartsWithY(p: Pattern) {
    match p
    case Prefixed(alts) => forall k :: 0 <= k < |alts| ==> |alts[k]| > 0 && alts[k][0] == 'y'
    case WatchQueryAnyV => true
  }

  /** An occurrence of `lit` fixes each character it covers. */
  lemma LiteralAtChar(s: string, i: nat, lit: string, d: nat)
    requires d < |lit|
    ensures LiteralAt(s, i, lit) ==> s[i + d] == lit[d]
  {
    if LiteralAt(s, i, lit) {
      assert s[i + d] == s[i..i + |lit|][d];
    }
  }

  lemma NoCaptureWithoutY(p: Pattern, s: string, i: nat)
    requires StartsWithY(p)
    requires i < |s| ==> s[i] != 'y'
    ensures CaptureAt(p, s, i).None?
  {
    match p
    case Prefixed(alts) =>
      forall k | 0 <= k < |alts| ensures !LiteralAt(s, i, alts[k]) {
        LiteralAtChar(s, i, alts[k], 0);
      }
      AltCaptureSome(s, i, alts);
    case WatchQueryAnyV =>
      LiteralAtChar(s, i, WatchQuery, 0);
  }

  lemma PatternsStartWithY()
    ensures forall k :: 0 <= k < |Patterns| ==> StartsWithY(Patterns[k])
  {
  }

  /** Positions where nothing can match are skipped by the search. */
  lemma {:induction false} SearchSkips(p: Pattern, s: string, i: nat, j: nat)
    requires i <= j <= |s|
    requires forall k :: i <= k < j ==> CaptureAt(p, s, k).None?
    ensures SearchFrom(p, s, i) == SearchFrom(p, s, j)
    decreases j - i
  {
    if i < j {
      SearchSkips(p, s, i + 1, j);
    }
  }

  /** A string without the letter 'y' matches none of the patterns. */
  lemma NoMatchWithoutY(s: string)
    requires forall i :: 0 <= i < |s| ==> s[i] != 'y'
    ensures FirstMatch(Patterns, s).None?
  {
    PatternsStartWithY();
    forall k | 0 <= k < |Patterns| ensures Search(Patterns[k], s).None? {
      PatternMissesWithoutY(Patterns[k], s);
    }
  }

  lemma PatternMissesWithoutY(p: Pattern, s: string)
    requires StartsWithY(p)
    requires forall i :: 0 <= i < |s| ==> s[i] != 'y'
    ensures Search(p, s).None?
  {
    forall j | 0 <= j <= |s| ensures CaptureAt(p, s, j).None? {
      NoCaptureWithoutY(p, s, j);
    }
    SearchMisses(p, s, 0);
  }

  /** A search over positions where nothing matches fails. */
  lemma {:induction false} SearchMisses(p: Pattern, s: string, i: nat)
    requires forall j :: i <= j <= |s| ==> CaptureAt(p, s, j).None?
    ensures SearchFrom(p, s, i).None?
    decreases |s| + 1 - i
  {
    if i <= |s| {
      SearchMisses(p, s, i + 1);
    }
  }

  /** Patterns 3 and 4 only ever match where pattern 1 already matched:
      whenever `youtu\.be/` or `youtube\.com/embed/` finds a token, so does the
      alternation that is tried first. */
  lemma LaterPatternsSubsumed(s: string, k: nat)
    requires k == 2 || k == 3
    ensures Search(Patterns[k], s).Some? ==> Search(Patterns[0], s).Some?
  {
    if Search(Patterns[k], s).Some? {
      var j := SearchWitness(Patterns[k], s, 0);
      var lit := if k == 2 then ShortPrefix else EmbedPrefix;
      assert Patterns[k].alternatives == [lit];
      AltCaptureSome(s, j, [lit]);
      assert LiteralAt(s, j, lit) && TokenAt(s, j + |lit|);
      assert Patterns[0].alternatives[k - 1] == lit;
      AltCaptureSome(s, j, Patterns[0].alternatives);
      SearchFinds(Patterns[0], s, 0, j);
    }
  }

  /** Hence extract_youtube_id behaves exactly as if it had only its first two patterns. */
  lemma FirstTwoPatternsDecide(s: string)
    ensures FirstMatch(Patterns, s) == FirstMatch(Patterns[..2], s)
  {
    LaterPatternsSubsumed(s, 2);
    LaterPatternsSubsumed(s, 3);
    assert Patterns[1..][1..] == Patterns[2..];
    assert Patterns[..2][1..] == [Patterns[1]];
  }

  // ---------------------------------------------------------------------
  // URLs built from an identifier
  // ---------------------------------------------------------------------

  const CanonicalPrefix: string := "https://www.youtube.com/watch?v="
  const EmbedUrlPrefix: string := "https://www.youtube.com/embed/"
  const EmbedUrlSuffix: string := "?rel=0&modestbranding=1"
  const ThumbnailPrefix: string := "https://img.youtube.com/vi/"
  const ThumbnailSuffix: string := "/maxresdefault.jpg"

  /** The URL Video.save writes when only an identifier was supplied. */
  function CanonicalUrl(id: string): string {
    CanonicalPrefix + id
  }

  /** Video.embed_url for a stored identifier. */
  function EmbedUrl(id: string): string {
    if id != "" then EmbedUrlPrefix + id + EmbedUrlSuffix else ""
  }

  /** Video.thumbnail_url for a stored identifier. */
  function ThumbnailUrl(id: string): string {
    if id != "" then ThumbnailPrefix + id + ThumbnailSuffix else ""
  }

  /** A synthesised URL gives its identifier back. */
  lemma CanonicalUrlRoundTrip(id: string)
    requires IsVideoId(id)
    ensures Extract(Some(CanonicalUrl(id))) == id
  {
    var s := CanonicalUrl(id);
    CanonicalNoEarlyCapture(id);
    SearchSkips(Patterns[0], s, 0, 12);
    CanonicalCaptureAt12(id);
  }

  /** Before the 'y' of "youtube.com" the first pattern cannot match. */
  lemma CanonicalNoEarlyCapture(id: string)
    ensures forall i :: 0 <= i < 12 ==> CaptureAt(Patterns[0], CanonicalUrl(id), i).None?
  {
    var s := CanonicalUrl(id);
    assert s[..|CanonicalPrefix|] == CanonicalPrefix;
    forall i | 0 <= i < 12 ensures CaptureAt(Patterns[0], s, i).None? {
      assert s[i] == CanonicalPrefix[i];
      NoCaptureWithoutY(Patterns[0], s, i);
    }
  }

  /** At the 'y' the "youtube.com/watch?v=" alternative captures the identifier. */
  lemma CanonicalCaptureAt12(id: string)
    requires IsVideoId(id)
    ensures CaptureAt(Patterns[0], CanonicalUrl(id), 12) == Some(12 + |WatchPrefix|)
  {
    var s := CanonicalUrl(id);
    assert s[12..12 + |WatchPrefix|] == WatchPrefix;
    assert s[12 + |WatchPrefix|..12 + |WatchPrefix| + IdLength] == id;
  }

  /** The example of the field's help text. */
  lemma HelpTextExample()
    ensures Extract(Some("https://www.youtube.com/watch?v=dQw4w9WgXcQ")) == "dQw4w9WgXcQ"
  {
    assert "https://www.youtube.com/watch?v=dQw4w9WgXcQ" == CanonicalUrl("dQw4w9WgXcQ");
    CanonicalUrlRoundTrip("dQw4w9WgXcQ");
  }

  /** A bare identifier is accepted as it is; text that is neither a
      YouTube URL nor an identifier gives "". */
  lemma BareIdAndNonUrlExamples()
    ensures Extract(Some("dQw4w9WgXcQ")) == "dQw4w9WgXcQ"
    ensures Extract(Some("not a url")) == ""
  {
    NoMatchWithoutY("dQw4w9WgXcQ");
    NoMatchWithoutY("not a url");
  }

  /** https://www.youtube.com/watch?feature=share&v=dQw4w9WgXcQ, spelled from its parts. */
  const WatchQueryUrl: string := ("https://www." + WatchQuery) + ("feature=share&" + VParam + "dQw4w9WgXcQ")

  /** Pattern 2 picks up an identifier whose `v=` is not the first query parameter. */
  lemma WatchQueryExample()
    ensures Extract(Some(WatchQueryUrl)) == "dQw4w9WgXcQ"
  {
    ExampleFirstMatch(WatchQueryUrl);
  }

  lemma ExampleFirstMatch(s: string)
    requires s == WatchQueryUrl
    ensures FirstMatch(Patterns, s) == Some("dQw4w9WgXcQ")
  {
    ExampleAlternationMisses(s);
    ExampleWatchQueryFinds(s);
    assert Patterns[1..][0] == Patterns[1];
  }

  /** In the example URL only position 12 holds a 'y', and none of the
      three alternatives of pattern 1 is spelled out there. */
  lemma ExampleAlternationMisses(s: string)
    requires s == WatchQueryUrl
    ensures Search(Patterns[0], s).None?
  {
    ExampleOneY(s);
    ExampleNoCaptureAtY(s);
    forall j | 0 <= j <= |s| && j != 12 ensures CaptureAt(Patterns[0], s, j).None? {
      NoCaptureWithoutY(Patterns[0], s, j);
    }
    SearchMisses(Patterns[0], s, 0);
  }

  /** In the example URL pattern 2 first matches at position 12, and the
      greedy `.*` backs off to the only `v=` on the line. */
  lemma ExampleOneY(s: string)
    requires s == WatchQueryUrl
    ensures forall i :: 0 <= i < |s| && i != 12 ==> s[i] != 'y'
  {
  }

  lemma ExampleNoCaptureAtY(s: string)
    requires s == WatchQueryUrl
    ensures CaptureAt(Patterns[0], s, 12).None?
  {
    assert s[30] == 'f' && s[17] == 'b' && s[24] == 'w';
    LiteralAtChar(s, 12, WatchPrefix, 18);
    LiteralAtChar(s, 12, ShortPrefix, 5);
    LiteralAtChar(s, 12, EmbedPrefix, 12);
    AltCaptureSome(s, 12, Patterns[0].alternatives);
  }

  lemma ExampleWatchQueryFinds(s: string)
    requires s == WatchQueryUrl
    ensures Search(Patterns[1], s) == Some("dQw4w9WgXcQ")
  {
    assert forall i :: 0 <= i < 12 ==> s[i] != 'y';
    forall i | 0 <= i < 12 ensures CaptureAt(Patterns[1], s, i).None? {
      NoCaptureWithoutY(Patterns[1], s, i);
    }
    SearchSkips(Patterns[1], s, 0, 12);
    assert LiteralAt(s, 12, WatchQuery) by {
      assert s[12..12 + |WatchQuery|] == WatchQuery;
    }
    ExampleLastV(s);
    assert s[46..57] == "dQw4w9WgXcQ";
  }

  lemma ExampleLastV(s: string)
    requires s == WatchQueryUrl
    ensures LastV(s, 30, LineEnd(s, 30)) == Some(44)
  {
    assert forall k :: 30 <= k < |s| ==> s[k] != '\n';
    assert LineEnd(s, 30) == |s|;
    assert VTokenAt(s, 44) by {
      assert s[44..46] == VParam;
      assert s[46..57] == "dQw4w9WgXcQ";
    }
    assert forall k :: 46 <= k < |s| ==> s[k] != '=';
    forall k | 44 < k <= |s| ensures !VTokenAt(s, k) {
      LiteralAtChar(s, k, VParam, 1);
    }
  }

  // ---------------------------------------------------------------------
  // Video.save on the two fields it touches
  // ---------------------------------------------------------------------

  /** (youtube_url, youtube_id) after Video.save, from the values before it. */
  function SavedFields(url: Option<string>, id: string): (r: (Option<string>, string))
    ensures id != "" ==> r.1 == id
    ensures Given(url) ==> r.0 == url
    ensures Given(url) && id == "" ==> r.1 == Extract(url)
    ensures !Given(url) && id != "" ==> r.0 == Some(CanonicalUrl(id))
    ensures !Given(url) && id == "" ==> r == (url, id)
  {
    if Given(url) && id == "" then (url, Extract(url))
    else if !Given(url) && id != "" then (Some(CanonicalUrl(id)), id)
    else (url, id)
  }

  /** Saving again changes nothing. */
  lemma SaveIdempotent(url: Option<string>, id: string)
    ensures SavedFields(SavedFields(url, id).0, SavedFields(url, id).1) == SavedFields(url, id)
  {
  }

  /** After a save, a stored identifier that is a real identifier is exactly
      the one its stored URL stands for, whichever field was supplied. */
  lemma SavedFieldsAgree(url: Option<string>, id: string)
    requires IsVideoId(id) || (id == "" && Given(url))
    requires !Given(url) || id == "" || Extract(url) == id
    ensures var r := SavedFields(url, id); r.1 == Extract(r.0)
  {
    if !Given(url) && id != "" {
      CanonicalUrlRoundTrip(id);
    }
  }

  /** embed_url and thumbnail_url are "" exactly when no identifier is stored,
      and they tell identifiers apart. */
  lemma DerivedUrls(a: string, b: string)
    ensures EmbedUrl(a) == "" <==> a == ""
    ensures ThumbnailUrl(a) == "" <==> a == ""
    ensures EmbedUrl(a) == EmbedUrl(b) ==> a == b
    ensures ThumbnailUrl(a) == ThumbnailUrl(b) ==> a == b
  {
    if a != "" && b != "" && EmbedUrl(a) == EmbedUrl(b) {
      assert |a| == |b|;
      assert a == EmbedUrl(a)[|EmbedUrlPrefix|..|EmbedUrlPrefix| + |a|];
      assert b == EmbedUrl(b)[|EmbedUrlPrefix|..|EmbedUrlPrefix| + |b|];
    }
    if a != "" && b != "" && ThumbnailUrl(a) == ThumbnailUrl(b) {
      assert |a| == |b|;
      assert a == ThumbnailUrl(a)[|ThumbnailPrefix|..|ThumbnailPrefix| + |a|];
      assert b == ThumbnailUrl(b)[|ThumbnailPrefix|..|ThumbnailPrefix| + |b|];
    }
  }

  // ---------------------------------------------------------------------
  // The fallback regex as written
  // ---------------------------------------------------------------------

  /** `len(url) == 11 and re.match(r'^[a-zA-Z0-9_-]+$', url)`: Python's `$`
      also matches just before a final newline, so ten identifier characters
      followed by "\n" pass as well. */
  predicate FallbackAsWritten(url: string) {
    |url| == IdLength
    && ((forall i :: 0 <= i < |url| ==> IsIdChar(url[i]))
        || (url[IdLength - 1] == '\n' && forall i :: 0 <= i < IdLength - 1 ==> IsIdChar(url[i])))
  }

  /** extract_youtube_id exactly as written, fallback included. */
  function ExtractAsWritten(url: Option<string>): string {
    if !Given(url) then ""
    else match FirstMatch(Patterns, url.value)
      case Some(t) => t
      case None => if FallbackAsWritten(url.value) then url.value else ""
  }

  /** The input that shows it: the code returns a string that is not an
      identifier, while the corrected rule returns "". */
  lemma TrailingNewlineSlipsThrough()
    ensures ExtractAsWritten(Some("abcdefghij\n")) == "abcdefghij\n"
    ensures !IsVideoId("abcdefghij\n")
    ensures Extract(Some("abcdefghij\n")) == ""
  {
    NoMatchWithoutY("abcdefghij\n");
  }

  /** The two agree everywhere else. */
  lemma FallbackDiffersOnlyOnNewline(url: Option<string>)
    requires Given(url) ==> url.value[|url.value| - 1] != '\n'
    ensures ExtractAsWritten(url) == Extract(url)
  {
  }

  /** Save with the extraction as written fills the same identifier as
      SavedFields for every URL that does not end in a newline. */
  lemma SavedFieldsMatchAsWritten(url: Option<string>, id: string)
    requires Given(url) && url.value[|url.value| - 1] != '\n'
    ensures id == "" ==> SavedFields(url, id).1 == ExtractAsWritten(url)
    ensures id != "" ==> SavedFields(url, id).1 == id
  {
    FallbackDiffersOnlyOnNewline(url);
  }

  /** With both fields given, save changes neither, even when the stored id
      is not the one the URL stands for. */
  lemma DisagreementSurvivesSave(url: Option<string>, id: string)
    requires Given(url) && id != ""
    ensures SavedFields(url, id) == (url, id)
  {
  }
}
