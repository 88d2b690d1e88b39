/** `extract_video_id` (identical text in main_download.py and utils.py):
    three regular expressions tried in order with `re.search`, each
    returning its 11-character capture group. The regexes are modelled
    position by position; the main result is that the second and third
    patterns never decide the outcome, so the whole cascade equals a
    single left-to-right scan. */
module VideoId {
  import opened Common

  /** Length of the captured identifier, `{11}` in every pattern. */
  const IdLength: nat := 11

  /** The character class `[0-9A-Za-z_-]`. */
  predicate IsIdChar(c: char) {
    ('0' <= c <= '9') || ('A' <= c <= 'Z') || ('a' <= c <= 'z') || c == '_' || c == '-'
  }

  /** Eleven identifier characters start at index `i`. */
  predicate IdAt(s: string, i: nat) {
    i + IdLength <= |s| && forall k :: i <= k < i + IdLength ==> IsIdChar(s[k])
  }

  /** The three patterns, in the order `extract_video_id` tries them:
      Generic   `(?:v=|\/)([0-9A-Za-z_-]{11}).*`
      PathForm  `(?:embed\/|v\/|youtu.be\/)([0-9A-Za-z_-]{11})`
      WatchForm `(?:watch\?v=)([0-9A-Za-z_-]{11})` */
  datatype Pattern = Generic | PathForm | WatchForm

  /** `youtu.be/` at `p`, where the regex `.` is any character but a newline. */
  predicate ShortHostAt(s: string, p: nat) {
    OccursAt(s, "youtu", p) && p + 5 < |s| && s[p + 5] != '\n' && OccursAt(s, "be/", p + 6)
  }

  /** Where the capture group starts when `pat` matches with its match
      beginning at index `p`, the alternatives tried left to right. */
  function MatchAt(pat: Pattern, s: string, p: nat): Option<nat> {
    match pat
    case Generic =>
      if OccursAt(s, "v=", p) && IdAt(s, p + 2) then Some(p + 2)
      else if OccursAt(s, "/", p) && IdAt(s, p + 1) then Some(p + 1)
      else None
    case PathForm =>
      if OccursAt(s, "embed/", p) && IdAt(s, p + 6) then Some(p + 6)
      else if OccursAt(s, "v/", p) && IdAt(s, p + 2) then Some(p + 2)
      else if ShortHostAt(s, p) && IdAt(s, p + 9) then Some(p + 9)
      else None
    case WatchForm =>
      if OccursAt(s, "watch?v=", p) && IdAt(s, p + 8) then Some(p + 8)
      else None
  }

  /** `match.group(1)` when `pat` matches with its match beginning at `p`. */
  function CaptureAt(pat: Pattern, s: string, p: nat): (r: Option<string>)
    ensures r.Some? <==> MatchAt(pat, s, p).Some?
    ensures r.Some? ==> |r.value| == IdLength && forall k :: 0 <= k < IdLength ==> IsIdChar(r.value[k])
  {
    match MatchAt(pat, s, p)
    case Some(c) => Some(s[c..c + IdLength])
    case None => None
  }

  /** `re.search(pat, s)` restricted to match starts `p, p+1, ..., |s|`,
      returning `match.group(1)`. */
  function Search(pat: Pattern, s: string, p: nat): Option<string>
    decreases |s| - p
  {
    if p > |s| then None
    else if CaptureAt(pat, s, p).Some? then CaptureAt(pat, s, p)
    else Search(pat, s, p + 1)
  }

  /** `extract_video_id(url)`: the first pattern that matches decides. */
  function ExtractVideoId(url: string): Option<string> {
    match Search(Generic, url, 0)
    case Some(id) => Some(id)
    case None =>
      match Search(PathForm, url, 0)
      case Some(id) => Some(id)
      case None => Search(WatchForm, url, 0)
  }

  /** The reference description: an identifier follows a `/` or a `v=`
      that starts at index `p`. */
  predicate IdAfterMarker(s: string, p: nat) {
    MatchAt(Generic, s, p).Some?
  }

  /** The 11 characters after the marker at `p`. */
  function IdAfterMarkerAt(s: string, p: nat): string
    requires IdAfterMarker(s, p)
  {
    var c := MatchAt(Generic, s, p).value;
    s[c..c + IdLength]
  }

  /** `p` is the leftmost marker followed by an identifier. */
  predicate LeftmostMarker(s: string, p: nat) {
    p <= |s| && IdAfterMarker(s, p) && forall q :: 0 <= q < p ==> !IdAfterMarker(s, q)
  }

  /** `q` is the first match start at or after `p`. */
  predicate FirstMatchFrom(pat: Pattern, s: string, p: nat, q: nat) {
    p <= q <= |s| && CaptureAt(pat, s, q).Some?
    && forall q' :: p <= q' < q ==> CaptureAt(pat, s, q').None?
  }

  lemma {:induction false} SearchFindsLeftmost(pat: Pattern, s: string, p: nat)
    ensures Search(pat, s, p).None? <==> forall q :: p <= q <= |s| ==> CaptureAt(pat, s, q).None?
    ensures Search(pat, s, p).Some? ==>
      exists q :: FirstMatchFrom(pat, s, p, q) && Search(pat, s, p) == CaptureAt(pat, s, q)
    decreases |s| - p
  {
    if p > |s| {
    } else if CaptureAt(pat, s, p).Some? {
      assert FirstMatchFrom(pat, s, p, p);
    } else {
      SearchFindsLeftmost(pat, s, p + 1);
      if Search(pat, s, p).Some? {
        var q :| FirstMatchFrom(pat, s, p + 1, q) && Search(pat, s, p + 1) == CaptureAt(pat, s, q);
        assert FirstMatchFrom(pat, s, p, q);
      }
    }
  }

  /** A generic match sits wherever a `/` or a `v=` precedes the capture. */
  lemma GenericBeforeCapture(s: string, c: nat)
    requires 2 <= c && IdAt(s, c)
    requires s[c - 1] == '/' || (s[c - 2] == 'v' && s[c - 1] == '=')
    ensures MatchAt(Generic, s, c - 1).Some? || MatchAt(Generic, s, c - 2).Some?
  {
    if s[c - 1] == '/' {
      assert s[c - 1..c] == "/";
    } else {
      assert s[c - 2..c] == "v=";
    }
  }

  /** A path-form or watch-form match always contains a generic match:
      `embed/`, `v/` and `youtu.be/` end in `/`, and `watch?v=` ends in `v=`. */
  lemma LaterPatternImpliesGeneric(pat: Pattern, s: string, p: nat)
    requires MatchAt(pat, s, p).Some?
    ensures exists q :: p <= q <= |s| && MatchAt(Generic, s, q).Some?
  {
    var c := MatchAt(pat, s, p).value;
    match pat
    case Generic =>
      assert MatchAt(Generic, s, p).Some?;
    case PathForm =>
      if OccursAt(s, "embed/", p) && IdAt(s, p + 6) {
        assert s[p + 5] == s[p..p + 6][5] == '/';
        GenericBeforeCapture(s, p + 6);
      } else if OccursAt(s, "v/", p) && IdAt(s, p + 2) {
        assert s[p + 1] == s[p..p + 2][1] == '/';
        GenericBeforeCapture(s, p + 2);
      } else {
        assert s[p + 8] == s[p + 6..p + 9][2] == '/';
        GenericBeforeCapture(s, p + 9);
      }
    case WatchForm =>
      assert s[p + 6] == s[p..p + 8][6] == 'v';
      assert s[p + 7] == s[p..p + 8][7] == '=';
      GenericBeforeCapture(s, p + 8);
  }

  /** If a later pattern finds an identifier, so does the generic one. */
  lemma LaterSearchImpliesGeneric(pat: Pattern, s: string)
    requires Search(pat, s, 0).Some?
    ensures Search(Generic, s, 0).Some?
  {
    SearchFindsLeftmost(pat, s, 0);
    var q: nat :| FirstMatchFrom(pat, s, 0, q) && Search(pat, s, 0) == CaptureAt(pat, s, q);
    LaterPatternImpliesGeneric(pat, s, q);
    var q': nat :| q <= q' <= |s| && MatchAt(Generic, s, q').Some?;
    assert CaptureAt(Generic, s, q').Some?;
    SearchFindsLeftmost(Generic, s, 0);
  }

  /** Patterns 2 and 3 never change the outcome: `extract_video_id` is the
      first pattern's search alone. */
  lemma ExtractIsGenericSearch(url: string)
    ensures ExtractVideoId(url) == Search(Generic, url, 0)
  {
    if Search(PathForm, url, 0).Some? {
      LaterSearchImpliesGeneric(PathForm, url);
    }
    if Search(WatchForm, url, 0).Some? {
      LaterSearchImpliesGeneric(WatchForm, url);
    }
  }

  /** Every extracted identifier is 11 characters of `[0-9A-Za-z_-]` taken
      from the URL. */
  lemma ExtractedIdShape(url: string)
    requires ExtractVideoId(url).Some?
    ensures |ExtractVideoId(url).value| == IdLength
    ensures forall k :: 0 <= k < IdLength ==> IsIdChar(ExtractVideoId(url).value[k])
  {
    ExtractIsGenericSearch(url);
    SearchFindsLeftmost(Generic, url, 0);
  }

  /** A hand-rolled scanner for `extract_video_id`: the identifier after the
      leftmost `/` or `v=` that is followed by 11 identifier characters. */
  method ScanVideoId(url: string) returns (r: Option<string>)
    ensures r.None? <==> forall p :: 0 <= p <= |url| ==> !IdAfterMarker(url, p)
    ensures r.Some? ==> exists p :: LeftmostMarker(url, p) && r.value == IdAfterMarkerAt(url, p)
    ensures r == ExtractVideoId(url)
  {
    ExtractIsGenericSearch(url);
    var i := 0;
    while i <= |url|
      invariant 0 <= i <= |url| + 1
      invariant forall q :: 0 <= q < i ==> !IdAfterMarker(url, q)
      invariant Search(Generic, url, 0) == Search(Generic, url, i)
      decreases |url| + 1 - i
    {
      var start := -1;
      if i + 2 <= |url| && url[i] == 'v' && url[i + 1] == '=' && IdAt(url, i + 2) {
        start := i + 2;
      } else if i < |url| && url[i] == '/' && IdAt(url, i + 1) {
        start := i + 1;
      }
      if start >= 0 {
        assert url[i..i + 2] == "v=" || url[i..i + 1] == "/";
        assert MatchAt(Generic, url, i) == Some(start);
        r := Some(url[start..start + IdLength]);
        assert LeftmostMarker(url, i);
        return;
      }
      assert OccursAt(url, "v=", i) ==> url[i] == url[i..i + 2][0] && url[i + 1] == url[i..i + 2][1];
      assert OccursAt(url, "/", i) ==> url[i] == url[i..i + 1][0];
      assert !IdAfterMarker(url, i);
      i := i + 1;
    }
    r := None;
  }
}
