/** video_format_utils.py: the codec preference scan of `select_best_format`
    and the container lookup of `get_optimal_format`. Case folding is ASCII
    `str.lower()`. */
module CodecChoice {
  import opened Common

  /** `codec_priority`, most preferred first. */
  const Priority: seq<string> := ["av01", "vp09", "avc1"]

  /** `codec_format_map`, in its insertion (= iteration) order. */
  const FormatTable: seq<(string, string)> := [("av01", "mp4"), ("avc1", "mp4"), ("vp09", "webm"), ("mp4a", "mp4")]

  /** `key in codec.lower()`. */
  predicate Mentions(codec: string, key: string) {
    Contains(Lower(codec), key)
  }

  /** `i` is the first codec of the list that mentions `key`. */
  predicate IsFirstWith(codecs: seq<string>, key: string, i: nat) {
    i < |codecs| && Mentions(codecs[i], key) && forall j :: 0 <= j < i ==> !Mentions(codecs[j], key)
  }

  /** No codec of the list mentions `key`. */
  predicate NoneWith(codecs: seq<string>, key: string) {
    forall j :: 0 <= j < |codecs| ==> !Mentions(codecs[j], key)
  }

  /** The inner `for codec in codecs` loop, from index `i`: the first codec
      that mentions `key`. */
  function FirstWithFrom(codecs: seq<string>, key: string, i: nat): (r: Option<nat>)
    requires forall j :: 0 <= j < i && j < |codecs| ==> !Mentions(codecs[j], key)
    ensures r.Some? ==> IsFirstWith(codecs, key, r.value)
    ensures r.None? ==> NoneWith(codecs, key)
    decreases |codecs| - i
  {
    if i >= |codecs| then None
    else if Mentions(codecs[i], key) then Some(i)
    else FirstWithFrom(codecs, key, i + 1)
  }

  /** The outer `for priority_codec in codec_priority` loop, from priority
      `k`: the index of the codec the first priority with any match picks.
      Such a codec contains a four-letter key, so the `if selected_codec:
      break` always fires. */
  function PriorityScan(codecs: seq<string>, k: nat): (r: Option<nat>)
    requires k <= |Priority|
    ensures r.None? <==> forall p :: k <= p < |Priority| ==> NoneWith(codecs, Priority[p])
    ensures r.Some? ==> exists p :: k <= p < |Priority| && IsFirstWith(codecs, Priority[p], r.value)
                                  && forall p' :: k <= p' < p ==> NoneWith(codecs, Priority[p'])
    decreases |Priority| - k
  {
    if k == |Priority| then None
    else match FirstWithFrom(codecs, Priority[k], 0)
      case Some(i) => Some(i)
      case None => PriorityScan(codecs, k + 1)
  }

  /** No codec mentions any of the preferred keys. */
  predicate NoPreferred(codecs: seq<string>) {
    NoneWith(codecs, "av01") && NoneWith(codecs, "vp09") && NoneWith(codecs, "avc1")
  }

  /** A codec that mentions a key is not the empty string. */
  lemma MentionedIsNonEmpty(codec: string, key: string)
    requires |key| > 0 && Mentions(codec, key)
    ensures codec != ""
  {
    ContainsWitness(Lower(codec), key);
  }

  /** At most one index is the first to mention a key. */
  lemma FirstIsUnique(codecs: seq<string>, key: string, i: nat, j: nat)
    requires IsFirstWith(codecs, key, i) && IsFirstWith(codecs, key, j)
    ensures i == j
  {
    assert !(i < j) && !(j < i);
  }

  /** Which codec the priority scan, with the `codecs[0]` fallback, settles
      on: the first mentioning `av01`, else `vp09`, else `avc1`, else the
      first codec of the list. */
  ghost predicate PreferredCodec(codecs: seq<string>, c: string) {
    if !NoneWith(codecs, "av01") then exists i: nat :: IsFirstWith(codecs, "av01", i) && c == codecs[i]
    else if !NoneWith(codecs, "vp09") then exists i: nat :: IsFirstWith(codecs, "vp09", i) && c == codecs[i]
    else if !NoneWith(codecs, "avc1") then exists i: nat :: IsFirstWith(codecs, "avc1", i) && c == codecs[i]
    else |codecs| > 0 && c == codecs[0]
  }

  /** The pair `select_best_format` returns when it finds a codec. */
  datatype FormatChoice = FormatChoice(container: string, codec: string)

  /** Lines 1-24 of video_format_utils.py, `select_best_format(codecs, resolution)`; `None` stands
      for `(None, None)`. */
  function SelectBestFormat(codecs: seq<string>, resolution: string): (r: Option<FormatChoice>)
    ensures r.None? <==> |codecs| == 0 || (NoPreferred(codecs) && codecs[0] == "")
    ensures r.Some? ==> r.value.codec in codecs && PreferredCodec(codecs, r.value.codec)
    ensures r.Some? ==> r.value.container == GetOptimalFormat(r.value.codec, resolution)
  {
    match PriorityScan(codecs, 0)
    case Some(i) =>
      var p :| 0 <= p < |Priority| && IsFirstWith(codecs, Priority[p], i)
               && forall p' :: 0 <= p' < p ==> NoneWith(codecs, Priority[p']);
      assert Priority[0] == "av01" && Priority[1] == "vp09" && Priority[2] == "avc1";
      MentionedIsNonEmpty(codecs[i], Priority[p]);
      assert !NoneWith(codecs, Priority[p]);
      assert PreferredCodec(codecs, codecs[i]);
      Some(FormatChoice(GetOptimalFormat(codecs[i], resolution), codecs[i]))
    case None =>
      assert NoPreferred(codecs) by {
        assert Priority[0] == "av01" && Priority[1] == "vp09" && Priority[2] == "avc1";
      }
      if |codecs| > 0 && codecs[0] != "" then
        Some(FormatChoice(GetOptimalFormat(codecs[0], resolution), codecs[0]))
      else None
  }

  /** The preferred codec is unique, so `select_best_format` is determined by
      the priority rule alone. */
  lemma PreferredCodecUnique(codecs: seq<string>, c1: string, c2: string)
    requires PreferredCodec(codecs, c1) && PreferredCodec(codecs, c2)
    ensures c1 == c2
  {
    if !NoneWith(codecs, "av01") {
      var i: nat :| IsFirstWith(codecs, "av01", i) && c1 == codecs[i];
      var j: nat :| IsFirstWith(codecs, "av01", j) && c2 == codecs[j];
      FirstIsUnique(codecs, "av01", i, j);
    } else if !NoneWith(codecs, "vp09") {
      var i: nat :| IsFirstWith(codecs, "vp09", i) && c1 == codecs[i];
      var j: nat :| IsFirstWith(codecs, "vp09", j) && c2 == codecs[j];
      FirstIsUnique(codecs, "vp09", i, j);
    } else if !NoneWith(codecs, "avc1") {
      var i: nat :| IsFirstWith(codecs, "avc1", i) && c1 == codecs[i];
      var j: nat :| IsFirstWith(codecs, "avc1", j) && c2 == codecs[j];
      FirstIsUnique(codecs, "avc1", i, j);
    }
  }

  /** `codec_format_map` lookup from entry `k`: the first key the codec
      contains gives the container; none gives `'mp4'`. */
  function TableLookup(lowered: string, k: nat): (r: string)
    requires k <= |FormatTable|
    ensures r == "mp4" || r == "webm"
    decreases |FormatTable| - k
  {
    if k == |FormatTable| then "mp4"
    else if Contains(lowered, FormatTable[k].0) then FormatTable[k].1
    else TableLookup(lowered, k + 1)
  }

  /** `get_optimal_format(codec, resolution)`. */
  function GetOptimalFormat(codec: string, resolution: string): (r: string)
    ensures r == "mp4" || r == "webm"
    ensures r == "webm" <==> Mentions(codec, "vp09") && !Mentions(codec, "av01") && !Mentions(codec, "avc1")
  {
    var lowered := Lower(codec);
    var res := Lower(resolution);
    if Contains(lowered, "avc1") && (res == "360p" || res == "480p") then "mp4"
    else TableLookup(lowered, 0)
  }

  /** The `avc1` special case for 360p/480p agrees with the table, so the
      resolution never changes the container. */
  lemma ResolutionIrrelevant(codec: string, r1: string, r2: string)
    ensures GetOptimalFormat(codec, r1) == GetOptimalFormat(codec, r2)
    ensures GetOptimalFormat(codec, r1) == TableLookup(Lower(codec), 0)
  {
  }

  /** A codec containing none of the table's keys maps to `'mp4'`. */
  lemma UnknownCodecIsMp4(codec: string, resolution: string)
    requires forall k :: 0 <= k < |FormatTable| ==> !Mentions(codec, FormatTable[k].0)
    ensures GetOptimalFormat(codec, resolution) == "mp4"
  {
  }

  /** If any codec mentions `av01`, the first such codec is chosen, and it
      goes into an mp4 container. */
  lemma FirstAv01Wins(codecs: seq<string>, resolution: string, i: nat)
    requires IsFirstWith(codecs, "av01", i)
    ensures SelectBestFormat(codecs, resolution) == Some(FormatChoice("mp4", codecs[i]))
  {
    var r := SelectBestFormat(codecs, resolution);
    assert !NoPreferred(codecs);
    PreferredCodecUnique(codecs, r.value.codec, codecs[i]);
  }

  lemma ExampleVp09LacksAv01(s: string)
    requires s == "vp09.00.40.08"
    ensures !Mentions(s, "av01")
  {
    var l := Lower(s);
    assert forall k :: 0 <= k < |s| ==> s[k] != 'a' && s[k] != 'A';
    assert forall k :: 0 <= k < |l| ==> l[k] != 'a';
    NotContainsWithoutFirstChar(l, "av01");
  }

  lemma ExampleAvc1LacksAv01(s: string)
    requires s == "avc1.4d401f"
    ensures !Mentions(s, "av01")
  {
    var l := Lower(s);
    assert l[0] == 'a' && l[2] == 'c';
    assert forall k :: 1 <= k < |s| ==> s[k] != 'a' && s[k] != 'A';
    assert forall k :: 1 <= k < |l| ==> l[k] != 'a';
    NotContainsWithoutFirstChar(l[1..], "av01");
    assert !OccursAt(l, "av01", 0) by {
      assert l[..4][2] != "av01"[2];
    }
  }

  lemma ExampleAv01MentionsAv01(s: string)
    requires s == "av01.0.12M.08"
    ensures Mentions(s, "av01")
  {
    var l := Lower(s);
    assert l[..4] == "av01";
  }

  lemma ThirdIsFirstAv01(codecs: seq<string>)
    requires |codecs| > 2
    requires !Mentions(codecs[0], "av01") && !Mentions(codecs[1], "av01") && Mentions(codecs[2], "av01")
    ensures IsFirstWith(codecs, "av01", 2)
  {
  }

  /** The example in the source's trailing comment, codecs
      `['vp09.00.40.08', 'avc1.4d401f', 'av01.0.12M.08', 'vp09.00.50.08']`
      with resolution `'720p'`: the `av01` codec wins, in an mp4 container. */
  lemma DocumentedExample(codecs: seq<string>, resolution: string)
    requires |codecs| == 4 && resolution == "720p"
    requires codecs[0] == "vp09.00.40.08" && codecs[1] == "avc1.4d401f"
    requires codecs[2] == "av01.0.12M.08" && codecs[3] == "vp09.00.50.08"
    ensures SelectBestFormat(codecs, resolution) == Some(FormatChoice("mp4", "av01.0.12M.08"))
  {
    ExampleVp09LacksAv01(codecs[0]);
    ExampleAvc1LacksAv01(codecs[1]);
    ExampleAv01MentionsAv01(codecs[2]);
    ThirdIsFirstAv01(codecs);
    FirstAv01Wins(codecs, resolution, 2);
  }
}
