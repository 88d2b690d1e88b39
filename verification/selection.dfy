/** The body of the `try` in `get_best_video_and_audio_url`: a pure choice of
    the best video format (under an optional quality ceiling) and the best
    audio format among the formats one probe returned. */
module Selection {
  import opened Common

  /** One entry of `info['formats']`. Every key may be absent; the bitrates
      `tbr`/`abr` are integers here because only comparisons use them. */
  datatype Format = Format(
    vcodec: Option<string>,
    acodec: Option<string>,
    height: Option<int>,
    tbr: Option<int>,
    abr: Option<int>,
    url: Option<string>,
    ext: Option<string>)

  /** The probe payload: `info.get('title', 'Unknown')`, `info.get('formats', [])`. */
  datatype Info = Info(title: Option<string>, formats: Option<seq<Format>>)

  function FormatsOf(info: Info): seq<Format> {
    info.formats.GetOr([])
  }

  function TitleOf(info: Info): string {
    info.title.GetOr("Unknown")
  }

  /** `f.get('vcodec') != 'none'`: an absent codec counts as video. */
  predicate HasVideo(f: Format) {
    f.vcodec != Some("none")
  }

  /** `f.get('acodec') != 'none'`: an absent codec counts as audio. */
  predicate HasAudio(f: Format) {
    f.acodec != Some("none")
  }

  /** Membership in `video_formats` before the ceiling. */
  predicate IsVideoCandidate(f: Format) {
    HasVideo(f) && f.height.Some?
  }

  /** `max_quality` is truthy: present and non-zero. */
  predicate HasCeiling(maxQuality: Option<int>) {
    maxQuality.Some? && maxQuality.value != 0
  }

  /** Passes the ceiling filter `f['height'] <= max_quality` (or no ceiling). */
  predicate UnderCeiling(f: Format, maxQuality: Option<int>) {
    !HasCeiling(maxQuality) || (f.height.Some? && f.height.value <= maxQuality.value)
  }

  /** The selector's failures: the two `ValueError`s and the `KeyError` of a
      chosen format that lacks `url` or `ext`. */
  datatype SelectError =
    | NoValidFormats
    | NoFormatsUnderQuality(ceiling: int)
    | MissingKey(key: string)

  /** `str(e)` of the raised exception; a `KeyError` renders its key quoted. */
  function ErrorMessage(e: SelectError): (m: string)
    ensures e.NoFormatsUnderQuality? ==> Contains(m, IntToString(e.ceiling) + "p")
    ensures e.MissingKey? ==> m == "'" + e.key + "'"
  {
    match e
    case NoValidFormats => "No valid video formats found"
    case NoFormatsUnderQuality(q) =>
      var prefix := "No video formats found with quality ";
      var m := prefix + (IntToString(q) + "p") + " or lower";
      assert OccursAt(m, IntToString(q) + "p", |prefix|);
      ContainsWitness(m, IntToString(q) + "p");
      m
    case MissingKey(k) => "'" + k + "'"
  }

  /** A lexicographic sort key, as Python compares 2-tuples. */
  datatype Rank = Rank(primary: int, secondary: int)

  predicate Below(a: Rank, b: Rank) {
    a.primary < b.primary || (a.primary == b.primary && a.secondary < b.secondary)
  }

  /** `(x['height'], x.get('tbr', 0))`. */
  function VideoRank(f: Format): Rank {
    Rank(f.height.GetOr(0), f.tbr.GetOr(0))
  }

  /** `(x.get('abr', 0) or 0, x.get('tbr', 0) or 0)`. */
  function AudioRank(f: Format): Rank {
    Rank(f.abr.GetOr(0), f.tbr.GetOr(0))
  }

  /** Index `i` holds the element Python's `max(xs, key=rank)` returns: no
      element ranks above it and every earlier element ranks strictly below. */
  predicate IsFirstMax(xs: seq<Format>, rank: Format -> Rank, i: nat) {
    i < |xs|
    && (forall j :: 0 <= j < |xs| ==> !Below(rank(xs[i]), rank(xs[j])))
    && (forall j :: 0 <= j < i ==> Below(rank(xs[j]), rank(xs[i])))
  }

  /** Python's `max`: scan left to right, replacing the best only on a
      strictly greater key. */
  function MaxBy(xs: seq<Format>, rank: Format -> Rank): (i: nat)
    requires |xs| > 0
    ensures IsFirstMax(xs, rank, i)
    decreases |xs|
  {
    if |xs| == 1 then 0
    else
      var front := xs[..|xs| - 1];
      var i := MaxBy(front, rank);
      assert forall j :: 0 <= j < |front| ==> front[j] == xs[j];
      if Below(rank(xs[i]), rank(xs[|xs| - 1])) then |xs| - 1 else i
  }

  /** The first-maximum is unique, so `MaxBy` is fully determined by it. */
  lemma FirstMaxUnique(xs: seq<Format>, rank: Format -> Rank, i: nat, k: nat)
    requires IsFirstMax(xs, rank, i) && IsFirstMax(xs, rank, k)
    ensures i == k
  {
    var ri, rk := rank(xs[i]), rank(xs[k]);
    assert !Below(ri, rk) && !Below(rk, ri);
  }

  /** Index `i` of `fs` holds what `max(xs, key=rank)` returns for the list
      comprehension `xs = [f for f in fs if keep(f)]`, stated on `fs` itself:
      `fs[i]` is kept, no kept format ranks above it, and every kept format
      before it ranks strictly below it. */
  predicate IsFirstMaxWhere(fs: seq<Format>, keep: Format -> bool, rank: Format -> Rank, i: nat) {
    i < |fs| && keep(fs[i])
    && (forall j :: 0 <= j < |fs| && keep(fs[j]) ==> !Below(rank(fs[i]), rank(fs[j])))
    && (forall j :: 0 <= j < i && keep(fs[j]) ==> Below(rank(fs[j]), rank(fs[i])))
  }

  /** At most one position of `fs` is that first maximum. */
  lemma FirstMaxWhereUnique(fs: seq<Format>, keep: Format -> bool, rank: Format -> Rank, i: nat, k: nat)
    requires IsFirstMaxWhere(fs, keep, rank, i) && IsFirstMaxWhere(fs, keep, rank, k)
    ensures i == k
  {
    var ri, rk := rank(fs[i]), rank(fs[k]);
    assert !Below(ri, rk) && !Below(rk, ri);
  }

  /** The list comprehension `[f for f in fs if keep(f)]`. */
  function Filter(fs: seq<Format>, keep: Format -> bool): (r: seq<Format>)
    ensures forall f :: f in r <==> f in fs && keep(f)
    ensures |r| <= |fs|
    ensures (forall f :: f in fs ==> keep(f)) ==> r == fs
  {
    if fs == [] then []
    else (if keep(fs[0]) then [fs[0]] else []) + Filter(fs[1..], keep)
  }

  /** The comprehension keeps probe order and duplicates: filtering a
      concatenation concatenates the filtered parts. */
  lemma {:induction false} FilterAppend(a: seq<Format>, b: seq<Format>, keep: Format -> bool)
    ensures Filter(a + b, keep) == Filter(a, keep) + Filter(b, keep)
    decreases |a|
  {
    if a == [] {
      assert a + b == b;
    } else {
      assert (a + b)[0] == a[0];
      assert (a + b)[1..] == a[1..] + b;
      FilterAppend(a[1..], b, keep);
    }
  }

  /** Filtering twice is filtering once by the conjunction. */
  lemma {:induction false} FilterTwice(fs: seq<Format>, p: Format -> bool, q: Format -> bool, both: Format -> bool)
    requires forall f :: both(f) == (p(f) && q(f))
    ensures Filter(Filter(fs, p), q) == Filter(fs, both)
    decreases |fs|
  {
    if fs != [] {
      var head := if p(fs[0]) then [fs[0]] else [];
      FilterTwice(fs[1..], p, q, both);
      FilterAppend(head, Filter(fs[1..], p), q);
      if p(fs[0]) {
        assert head[1..] == [];
      }
    }
  }

  /** A first maximum at the head of the filtered list is one at the head
      of the original list. */
  lemma FirstMaxAtHead(fs: seq<Format>, keep: Format -> bool, rank: Format -> Rank)
    requires fs != [] && keep(fs[0])
    requires IsFirstMax(Filter(fs, keep), rank, 0)
    ensures IsFirstMaxWhere(fs, keep, rank, 0)
  {
    var xs := Filter(fs, keep);
    assert xs[0] == fs[0];
    forall j | 0 <= j < |fs| && keep(fs[j])
      ensures !Below(rank(fs[0]), rank(fs[j]))
    {
      assert fs[j] in fs;
      var m :| 0 <= m < |xs| && xs[m] == fs[j];
    }
  }

  /** Dropping a kept head that ranks below the maximum keeps the maximum. */
  lemma FirstMaxDropHead(x: Format, ys: seq<Format>, rank: Format -> Rank, k: nat)
    requires 0 < k && IsFirstMax([x] + ys, rank, k)
    ensures IsFirstMax(ys, rank, k - 1)
  {
    var xs := [x] + ys;
    assert forall j :: 0 <= j < |ys| ==> xs[j + 1] == ys[j];
  }

  /** A first maximum of the tail is one of the whole list, one position on,
      when the head is not kept or ranks strictly below it. */
  lemma FirstMaxShift(fs: seq<Format>, keep: Format -> bool, rank: Format -> Rank, i: nat)
    requires fs != [] && IsFirstMaxWhere(fs[1..], keep, rank, i)
    requires keep(fs[0]) ==> Below(rank(fs[0]), rank(fs[i + 1]))
    ensures IsFirstMaxWhere(fs, keep, rank, i + 1)
  {
    var rest := fs[1..];
    assert fs[i + 1] == rest[i];
    forall j | 0 <= j < |fs| && keep(fs[j])
      ensures !Below(rank(fs[i + 1]), rank(fs[j]))
      ensures j < i + 1 ==> Below(rank(fs[j]), rank(fs[i + 1]))
    {
      if j > 0 {
        assert fs[j] == rest[j - 1];
      }
    }
  }

  /** `max` over a comprehension picks the first maximum of the kept
      formats, counted in the original list. */
  lemma {:induction false} FirstMaxLifts(fs: seq<Format>, keep: Format -> bool, rank: Format -> Rank, k: nat)
    requires IsFirstMax(Filter(fs, keep), rank, k)
    ensures exists i: nat :: IsFirstMaxWhere(fs, keep, rank, i) && fs[i] == Filter(fs, keep)[k]
    decreases |fs|, 1
  {
    var xs := Filter(fs, keep);
    var ys := Filter(fs[1..], keep);
    if keep(fs[0]) {
      assert xs == [fs[0]] + ys;
      if k == 0 {
        FirstMaxAtHead(fs, keep, rank);
      } else {
        FirstMaxDropHead(fs[0], ys, rank, k);
        assert xs[k] == ys[k - 1] && xs[0] == fs[0];
        FirstMaxFromTail(fs, keep, rank, k, k - 1);
      }
    } else {
      assert xs == ys;
      FirstMaxFromTail(fs, keep, rank, k, k);
    }
  }

  /** The inductive step of `FirstMaxLifts`: the maximum lies in the tail,
      and the head is dropped or ranks strictly below it. */
  lemma {:induction false} FirstMaxFromTail(fs: seq<Format>, keep: Format -> bool, rank: Format -> Rank, k: nat, t: nat)
    requires fs != [] && k < |Filter(fs, keep)|
    requires IsFirstMax(Filter(fs[1..], keep), rank, t)
    requires Filter(fs, keep)[k] == Filter(fs[1..], keep)[t]
    requires keep(fs[0]) ==> Below(rank(fs[0]), rank(Filter(fs, keep)[k]))
    ensures exists i: nat :: IsFirstMaxWhere(fs, keep, rank, i) && fs[i] == Filter(fs, keep)[k]
    decreases |fs|, 0
  {
    var rest := fs[1..];
    FirstMaxLifts(rest, keep, rank, t);
    var i: nat :| IsFirstMaxWhere(rest, keep, rank, i) && rest[i] == Filter(rest, keep)[t];
    assert fs[i + 1] == rest[i];
    FirstMaxShift(fs, keep, rank, i);
  }

  /** Passes the `if max_quality:` filter. */
  function UnderCeilingOf(maxQuality: Option<int>): Format -> bool {
    f => UnderCeiling(f, maxQuality)
  }

  /** A video candidate that also passes the ceiling. */
  function EligibleUnder(maxQuality: Option<int>): Format -> bool {
    f => IsVideoCandidate(f) && UnderCeiling(f, maxQuality)
  }

  /** The ceiling filter of the `if max_quality:` block; without a truthy
      ceiling the list is left as it is. */
  function ApplyCeiling(fs: seq<Format>, maxQuality: Option<int>): (r: seq<Format>)
    ensures forall f :: f in r <==> f in fs && UnderCeiling(f, maxQuality)
    ensures !HasCeiling(maxQuality) ==> r == fs
  {
    Filter(fs, UnderCeilingOf(maxQuality))
  }

  /** Lines 53-71: the best video format, or the `ValueError` raised. The
      choice is the first format of the probe's list, among the candidates
      within the ceiling, whose `(height, tbr)` nothing beats. */
  function ChooseVideo(fs: seq<Format>, maxQuality: Option<int>): (r: Result<Format, SelectError>)
    ensures r == Err(NoValidFormats) <==> forall f :: f in fs ==> !IsVideoCandidate(f)
    ensures r.Err? && r.error.NoFormatsUnderQuality? <==>
      HasCeiling(maxQuality) && (exists f :: f in fs && IsVideoCandidate(f))
      && forall f :: f in fs && IsVideoCandidate(f) ==> !UnderCeiling(f, maxQuality)
    ensures r.Err? && r.error.NoFormatsUnderQuality? ==> r.error.ceiling == maxQuality.value
    ensures r.Err? ==> !r.error.MissingKey?
    ensures r.Ok? ==> r.value in fs && IsVideoCandidate(r.value)
    ensures r.Ok? && HasCeiling(maxQuality) ==> r.value.height.value <= maxQuality.value
    ensures r.Ok? ==> exists i: nat :: IsFirstMaxWhere(fs, EligibleUnder(maxQuality), VideoRank, i)
                                 && fs[i] == r.value
  {
    var videos := Filter(fs, IsVideoCandidate);
    if |videos| == 0 then Err(NoValidFormats)
    else
      var eligible := ApplyCeiling(videos, maxQuality);
      if |eligible| == 0 then
        assert videos[0] in videos;
        Err(NoFormatsUnderQuality(maxQuality.value))
      else
        var i := MaxBy(eligible, VideoRank);
        assert eligible[i] in eligible;
        FilterTwice(fs, IsVideoCandidate, UnderCeilingOf(maxQuality), EligibleUnder(maxQuality));
        FirstMaxLifts(fs, EligibleUnder(maxQuality), VideoRank, i);
        Ok(eligible[i])
  }

  /** Conversely, the first maximum among the eligible formats of the
      probe's list is what the selection returns. */
  lemma ChooseVideoPicksFirstMax(fs: seq<Format>, maxQuality: Option<int>, i: nat)
    requires IsFirstMaxWhere(fs, EligibleUnder(maxQuality), VideoRank, i)
    ensures ChooseVideo(fs, maxQuality) == Ok(fs[i])
  {
    assert fs[i] in fs && IsVideoCandidate(fs[i]) && UnderCeiling(fs[i], maxQuality);
    var r := ChooseVideo(fs, maxQuality);
    var k: nat :| IsFirstMaxWhere(fs, EligibleUnder(maxQuality), VideoRank, k) && fs[k] == r.value;
    FirstMaxWhereUnique(fs, EligibleUnder(maxQuality), VideoRank, i, k);
  }

  /** Lines 74-80 (without the key lookups): the best audio format over the
      whole list, present iff some format carries audio; it is the first
      format of the probe's list whose `(abr, tbr)` no audio format beats. */
  function ChooseAudio(fs: seq<Format>): (r: Option<Format>)
    ensures r.Some? <==> exists f :: f in fs && HasAudio(f)
    ensures r.Some? ==> r.value in fs && HasAudio(r.value)
    ensures r.Some? ==> exists i: nat :: IsFirstMaxWhere(fs, HasAudio, AudioRank, i) && fs[i] == r.value
  {
    var audios := Filter(fs, HasAudio);
    if |audios| == 0 then None
    else
      assert audios[0] in audios;
      var i := MaxBy(audios, AudioRank);
      assert audios[i] in audios;
      FirstMaxLifts(fs, HasAudio, AudioRank, i);
      Some(audios[i])
  }

  /** The tuple `get_best_video_and_audio_url` returns. */
  datatype Chosen = Chosen(
    videoUrl: string,
    audioUrl: Option<string>,
    title: string,
    resolution: string,
    videoExt: string,
    audioExt: Option<string>,
    videoHasAudio: bool,
    hasSeparateAudio: bool)

  /** `f"{best_video['height']}p"`. */
  function ResolutionLabel(height: int): string {
    IntToString(height) + "p"
  }

  /** The format carries the two keys the source subscripts. */
  predicate HasKeys(f: Format) {
    f.url.Some? && f.ext.Some?
  }

  /** Lines 72-89 once the video is chosen: looks up `url`/`ext` in the order
      the source does (audio first) and builds the result tuple. */
  function Assemble(info: Info, video: Format): (r: Result<Chosen, SelectError>)
    requires video.height.Some?
    ensures r.Ok? <==> (HasKeys(video)
      && (ChooseAudio(FormatsOf(info)).Some? ==> HasKeys(ChooseAudio(FormatsOf(info)).value)))
    ensures r.Err? && ChooseAudio(FormatsOf(info)).Some? && !HasKeys(ChooseAudio(FormatsOf(info)).value) ==>
      r.error == MissingKey(if ChooseAudio(FormatsOf(info)).value.url.None? then "url" else "ext")
    ensures r.Err? && (ChooseAudio(FormatsOf(info)).None? || HasKeys(ChooseAudio(FormatsOf(info)).value)) ==>
      r.error == MissingKey(if video.url.None? then "url" else "ext")
    ensures r.Ok? ==> (r.value.audioUrl.Some? <==> r.value.hasSeparateAudio)
    ensures r.Ok? ==> (r.value.audioExt.Some? <==> r.value.hasSeparateAudio)
    ensures r.Ok? ==> (r.value.hasSeparateAudio <==> exists f :: f in FormatsOf(info) && HasAudio(f))
    ensures r.Ok? ==> r.value.videoHasAudio == HasAudio(video)
    ensures r.Ok? ==> video.url == Some(r.value.videoUrl) && video.ext == Some(r.value.videoExt)
    ensures r.Ok? ==> r.value.resolution == ResolutionLabel(video.height.value)
    ensures r.Ok? ==> r.value.title == TitleOf(info)
    ensures r.Ok? ==> (ChooseAudio(FormatsOf(info)).Some? <==> r.value.hasSeparateAudio)
    ensures r.Ok? && ChooseAudio(FormatsOf(info)).Some? ==>
      r.value.audioUrl == ChooseAudio(FormatsOf(info)).value.url
      && r.value.audioExt == ChooseAudio(FormatsOf(info)).value.ext
  {
    match ChooseAudio(FormatsOf(info))
    case Some(a) =>
      if a.url.None? then Err(MissingKey("url"))
      else if a.ext.None? then Err(MissingKey("ext"))
      else VideoFields(info, video, a.url, a.ext, true)
    case None => VideoFields(info, video, None, None, false)
  }

  /** Lines 85-89: the chosen video's own keys, looked up after the audio's. */
  function VideoFields(info: Info, video: Format, audioUrl: Option<string>, audioExt: Option<string>,
                       hasSeparateAudio: bool): (r: Result<Chosen, SelectError>)
    requires video.height.Some?
    ensures r.Err? <==> video.url.None? || video.ext.None?
    ensures r.Err? ==> r.error == MissingKey(if video.url.None? then "url" else "ext")
    ensures r.Ok? ==> (r.value.audioUrl == audioUrl && r.value.audioExt == audioExt
                       && r.value.hasSeparateAudio == hasSeparateAudio)
    ensures r.Ok? ==> video.url == Some(r.value.videoUrl) && video.ext == Some(r.value.videoExt)
    ensures r.Ok? ==> (r.value.resolution == ResolutionLabel(video.height.value)
                       && r.value.title == TitleOf(info) && r.value.videoHasAudio == HasAudio(video))
  {
    if video.url.None? then Err(MissingKey("url"))
    else if video.ext.None? then Err(MissingKey("ext"))
    else Ok(Chosen(video.url.value, audioUrl, TitleOf(info), ResolutionLabel(video.height.value),
                   video.ext.value, audioExt, HasAudio(video), hasSeparateAudio))
  }

  /** main_download.py's selection with the optional `max_quality` ceiling. */
  function SelectBest(info: Info, maxQuality: Option<int>): (r: Result<Chosen, SelectError>)
    ensures ChooseVideo(FormatsOf(info), maxQuality).Err? ==>
      r == Err(ChooseVideo(FormatsOf(info), maxQuality).error)
    ensures r.Ok? <==> (ChooseVideo(FormatsOf(info), maxQuality).Ok?
      && HasKeys(ChooseVideo(FormatsOf(info), maxQuality).value)
      && (ChooseAudio(FormatsOf(info)).Some? ==> HasKeys(ChooseAudio(FormatsOf(info)).value)))
    ensures r.Ok? ==> (Some(r.value.videoUrl) == ChooseVideo(FormatsOf(info), maxQuality).value.url
      && Some(r.value.videoExt) == ChooseVideo(FormatsOf(info), maxQuality).value.ext)
    ensures r.Ok? && ChooseAudio(FormatsOf(info)).Some? ==>
      r.value.audioUrl == ChooseAudio(FormatsOf(info)).value.url
  {
    match ChooseVideo(FormatsOf(info), maxQuality)
    case Err(e) => Err(e)
    case Ok(v) => Assemble(info, v)
  }

  /** The result invariants of the selector, whatever the ceiling:
      `audio_url`/`audio_ext` present iff `has_separate_audio`, and a video
      that carries audio implies separate audio exists (it is itself an
      audio candidate). */
  lemma SelectionInvariants(info: Info, maxQuality: Option<int>)
    ensures SelectBest(info, maxQuality).Ok? ==>
      var c := SelectBest(info, maxQuality).value;
      (c.audioUrl.Some? <==> c.hasSeparateAudio) && (c.audioExt.Some? <==> c.hasSeparateAudio)
      && (c.videoHasAudio ==> c.hasSeparateAudio)
  {
    if SelectBest(info, maxQuality).Ok? {
      var v := ChooseVideo(FormatsOf(info), maxQuality).value;
      assert v in FormatsOf(info);
    }
  }

  /** The resolution text reports a candidate height that respects the
      ceiling and can be read back as that height. */
  lemma ResolutionRespectsCeiling(info: Info, maxQuality: Option<int>)
    ensures SelectBest(info, maxQuality).Ok? ==>
      exists f :: (f in FormatsOf(info) && IsVideoCandidate(f)
        && SelectBest(info, maxQuality).value.resolution == ResolutionLabel(f.height.value)
        && (HasCeiling(maxQuality) ==> f.height.value <= maxQuality.value))
    ensures SelectBest(info, maxQuality).Ok? ==>
      var text := SelectBest(info, maxQuality).value.resolution;
      |text| > 1 && text[|text| - 1] == 'p' && ParseInt(text[..|text| - 1]).Some?
  {
    if SelectBest(info, maxQuality).Ok? {
      var v := ChooseVideo(FormatsOf(info), maxQuality).value;
      var text := ResolutionLabel(v.height.value);
      assert text[..|text| - 1] == IntToString(v.height.value);
      IntToStringRoundTrip(v.height.value);
    }
  }

  /** A zero ceiling is falsy in Python and filters nothing, exactly as no
      ceiling at all. */
  lemma ZeroCeilingIsNoCeiling(info: Info)
    ensures SelectBest(info, Some(0)) == SelectBest(info, None)
  {
  }

  /** A muxed format at height `h` with overall bitrate `tbr`, fetched from `url`. */
  function Sample(h: int, tbr: int, url: string): Format {
    Format(Some("avc1"), Some("mp4a"), Some(h), Some(tbr), None, Some(url), Some("mp4"))
  }

  /** The three formats of the worked example: 360p, 480p and 720p with
      bitrates rising with height. */
  function Ladder(): seq<Format> {
    [Sample(360, 500, "a"), Sample(480, 800, "b"), Sample(720, 1500, "c")]
  }

  /** Without a ceiling the 720p format wins. */
  lemma LadderNoCeiling()
    ensures ChooseVideo(Ladder(), None) == Ok(Sample(720, 1500, "c"))
  {
    assert IsFirstMaxWhere(Ladder(), EligibleUnder(None), VideoRank, 2);
    ChooseVideoPicksFirstMax(Ladder(), None, 2);
  }

  /** Under a 480 ceiling the 480p format wins. */
  lemma LadderCeiling480()
    ensures ChooseVideo(Ladder(), Some(480)) == Ok(Sample(480, 800, "b"))
  {
    assert IsFirstMaxWhere(Ladder(), EligibleUnder(Some(480)), VideoRank, 1);
    ChooseVideoPicksFirstMax(Ladder(), Some(480), 1);
  }

  /** Under a 144 ceiling nothing is left, and the error names the ceiling. */
  lemma LadderCeiling144(info: Info)
    requires info == Info(Some("clip"), Some(Ladder()))
    ensures SelectBest(info, Some(144)) == Err(NoFormatsUnderQuality(144))
  {
    var fs := FormatsOf(info);
    assert fs == Ladder();
    assert fs[0] in fs && IsVideoCandidate(fs[0]);
    assert forall f :: f in fs ==> f.height.Some? && f.height.value >= 360;
    assert ChooseVideo(fs, Some(144)) == Err(NoFormatsUnderQuality(144));
  }
}
