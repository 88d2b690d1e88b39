/** url_analyzer.py: classifying the flat-extraction payload of one input
    URL, the 429-only retry around it, and the concatenation over a batch.
    The probe is an environment function from (URL, attempt number) to what
    `extract_info` produced; the random jitter of each wait is an
    environment function of the attempt number. */
module UrlAnalyzer {
  import opened Common

  /** One element of `info['entries']`: a dict (with its `url` key, if any)
      or something else, on which `entry.get` raises. */
  datatype Entry = EntryDict(url: Option<string>) | EntryOther

  /** The value `extract_info` returned. `entries` is absent when the dict
      has no `entries` key. */
  datatype Payload =
    | Dict(kind: Option<string>, webpageUrl: Option<string>, url: Option<string>, entries: Option<seq<Entry>>)
    | NotDict

  /** What one call of `extract_info` produced. */
  datatype ProbeOutcome =
    | Extracted(payload: Payload)
    | DownloadFailed(message: string)
    | OtherFailure(message: string)

  /** The list comprehension over a playlist's entries; an entry that is not
      a dict makes `.get` raise, which the outer `except Exception` turns
      into `[]`. */
  function PlaylistUrls(entries: seq<Entry>): (r: Option<seq<string>>)
    ensures r.None? <==> exists k :: 0 <= k < |entries| && entries[k].EntryOther?
    ensures r.Some? ==> forall u :: u in r.value ==> u != "" && EntryDict(Some(u)) in entries
    ensures r.Some? ==> |r.value| <= |entries|
    decreases |entries|
  {
    if entries == [] then Some([])
    else
      var rest := PlaylistUrls(entries[1..]);
      if entries[0].EntryOther? || rest.None? then
        assert rest.None? ==> exists k :: 1 <= k < |entries| && entries[k].EntryOther? by {
          if rest.None? {
            var k :| 0 <= k < |entries[1..]| && entries[1..][k].EntryOther?;
            assert entries[k + 1].EntryOther?;
          }
        }
        None
      else
        assert forall k :: 1 <= k < |entries| ==> entries[k] == entries[1..][k - 1];
        Some((if Truthy(entries[0].url) then [entries[0].url.value] else []) + rest.value)
  }

  /** `info.get('_type') == 'url' or (info.get('webpage_url') and 'youtube.com' in info['webpage_url'])`. */
  predicate IsSingleItem(kind: Option<string>, webpageUrl: Option<string>) {
    kind == Some("url") || (Truthy(webpageUrl) && Contains(webpageUrl.value, "youtube.com"))
  }

  /** The classification of lines 20-32 as written: the single-item branch
      returns `[info.get('webpage_url') or info.get('url')]`, whose one
      element is Python's `None` when both keys are missing. */
  function ClassifyAsWritten(p: Payload): seq<Option<string>> {
    match p
    case NotDict => []
    case Dict(kind, webpageUrl, url, entries) =>
      if kind == Some("playlist") then
        if entries.None? then []
        else match PlaylistUrls(entries.value)
          case None => []
          case Some(us) => seq(|us|, i requires 0 <= i < |us| => Some(us[i]))
      else if IsSingleItem(kind, webpageUrl) then
        [if Truthy(webpageUrl) then webpageUrl else url]
      else []
  }

  /** A `_type: 'url'` payload with neither `webpage_url` nor `url` puts
      `None` into the list of video URLs. */
  lemma AsWrittenYieldsNone()
    ensures ClassifyAsWritten(Dict(Some("url"), None, None, None)) == [None]
  {
  }

  /** The classification with that defect removed: a single item without any
      URL contributes nothing. Used by the rest of the model. */
  function Classify(p: Payload): (r: seq<string>)
    ensures p.NotDict? ==> r == []
    ensures p.Dict? && p.kind == Some("playlist") ==>
      r == (if p.entries.None? || PlaylistUrls(p.entries.value).None? then []
            else PlaylistUrls(p.entries.value).value)
    ensures p.Dict? && p.kind != Some("playlist") && IsSingleItem(p.kind, p.webpageUrl) ==>
      |r| <= 1 && (Truthy(p.webpageUrl) ==> r == [p.webpageUrl.value])
      && (!Truthy(p.webpageUrl) && p.url.Some? ==> r == [p.url.value])
      && (r == [] <==> !Truthy(p.webpageUrl) && p.url.None?)
    ensures p.Dict? && p.kind != Some("playlist") && !IsSingleItem(p.kind, p.webpageUrl) ==> r == []
  {
    match p
    case NotDict => []
    case Dict(kind, webpageUrl, url, entries) =>
      if kind == Some("playlist") then
        if entries.None? then []
        else PlaylistUrls(entries.value).GetOr([])
      else if IsSingleItem(kind, webpageUrl) then
        if Truthy(webpageUrl) then [webpageUrl.value]
        else if url.Some? then [url.value]
        else []
      else []
  }

  /** The corrected classification agrees with the code on every payload
      except the one defect: it is the as-written list with `None` dropped. */
  lemma ClassifyDropsOnlyNone(p: Payload)
    ensures |ClassifyAsWritten(p)| == |Classify(p)| || ClassifyAsWritten(p) == [None]
    ensures ClassifyAsWritten(p) != [None] ==>
      forall i :: 0 <= i < |Classify(p)| ==> ClassifyAsWritten(p)[i] == Some(Classify(p)[i])
    ensures ClassifyAsWritten(p) == [None] ==> Classify(p) == []
  {
    if p.Dict? && p.kind == Some("playlist") && p.entries.Some? && PlaylistUrls(p.entries.value).Some? {
      var us := PlaylistUrls(p.entries.value).value;
      var written := ClassifyAsWritten(p);
      assert |written| == |us| && forall i :: 0 <= i < |us| ==> written[i] == Some(us[i]);
      assert written != [None] by {
        if |written| == 1 {
          assert written[0].Some?;
        }
      }
    }
  }

  /** A playlist's URLs are its entries' truthy `url`s, in entry order. */
  lemma {:induction false} PlaylistKeepsOrder(entries: seq<Entry>)
    requires forall k :: 0 <= k < |entries| ==> entries[k].EntryDict?
    ensures PlaylistUrls(entries) == Some(TruthyUrls(entries))
    decreases |entries|
  {
    if entries != [] {
      assert forall k :: 0 <= k < |entries[1..]| ==> entries[1..][k] == entries[k + 1];
      PlaylistKeepsOrder(entries[1..]);
      var head := if Truthy(entries[0].url) then [entries[0].url.value] else [];
      assert TruthyUrls(entries) == head + TruthyUrls(entries[1..]);
      assert PlaylistUrls(entries) == Some(head + PlaylistUrls(entries[1..]).value);
    }
  }

  /** The reference filter: entries with a truthy `url`, in order. */
  function TruthyUrls(entries: seq<Entry>): seq<string>
    decreases |entries|
  {
    if entries == [] then []
    else if entries[0].EntryDict? && Truthy(entries[0].url) then [entries[0].url.value] + TruthyUrls(entries[1..])
    else TruthyUrls(entries[1..])
  }

  /** Three entries, the middle one without a URL, give the other two in order. */
  lemma PlaylistExample(es: seq<Entry>)
    requires |es| == 3 && es[0] == EntryDict(Some("u1")) && es[1] == EntryDict(None)
    requires es[2] == EntryDict(Some("u3"))
    ensures Classify(Dict(Some("playlist"), None, None, Some(es))) == ["u1", "u3"]
  {
    PlaylistKeepsOrder(es);
    assert es[1..][1..] == [es[2]];
    assert TruthyUrls(es[1..][1..]) == ["u3"];
    assert TruthyUrls(es[1..]) == ["u3"];
  }

  /** The playlist check comes first: a playlist whose page is on
      youtube.com is still expanded entry by entry. */
  lemma PlaylistBeforeSingle(webpageUrl: string, entries: seq<Entry>)
    ensures Classify(Dict(Some("playlist"), Some(webpageUrl), Some(webpageUrl), Some(entries)))
         == PlaylistUrls(entries).GetOr([])
  {
  }

  /** The substring that marks a rate-limit error. */
  const RateLimitMarker: string := "HTTP Error 429"

  /** `max_retries` and `retry_delay` of `analyze_youtube_url`. */
  const MaxAttempts: nat := 3
  const RetryDelay: real := 10.0

  /** The expansion of one URL with the probes made and the waits slept. */
  datatype Analyzed = Analyzed(urls: seq<string>, probes: seq<string>, waits: seq<real>)

  predicate IsRateLimited(o: ProbeOutcome) {
    o.DownloadFailed? && Contains(o.message, RateLimitMarker)
  }

  /** The retry loop of `analyze_youtube_url` from `attempt` on. */
  function AnalyzeFrom(url: string, attempt: nat, probe: (string, nat) -> ProbeOutcome,
                       jitter: nat -> real): (r: Analyzed)
    requires attempt < MaxAttempts
    ensures 1 <= |r.probes| <= MaxAttempts - attempt
    ensures forall k :: 0 <= k < |r.probes| ==> r.probes[k] == url
    ensures |r.waits| == |r.probes| - 1
    ensures forall k :: 0 <= k < |r.waits| ==> r.waits[k] == RetryDelay + jitter(attempt + k)
    decreases MaxAttempts - attempt
  {
    var outcome := probe(url, attempt);
    if IsRateLimited(outcome) && attempt < MaxAttempts - 1 then
      var rest := AnalyzeFrom(url, attempt + 1, probe, jitter);
      Analyzed(rest.urls, [url] + rest.probes, [RetryDelay + jitter(attempt)] + rest.waits)
    else if outcome.Extracted? then Analyzed(Classify(outcome.payload), [url], [])
    else Analyzed([], [url], [])
  }

  /** Every probe but the last hit a 429; the list comes from the last
      probe's payload (empty on any exception); and a last 429 means the
      attempts ran out. */
  lemma {:induction false} AnalyzeFromOutcome(url: string, attempt: nat, probe: (string, nat) -> ProbeOutcome,
                                              jitter: nat -> real)
    requires attempt < MaxAttempts
    ensures var r := AnalyzeFrom(url, attempt, probe, jitter);
      var last := probe(url, attempt + |r.probes| - 1);
      && (forall a :: attempt <= a < attempt + |r.probes| - 1 ==> IsRateLimited(probe(url, a)))
      && r.urls == (if last.Extracted? then Classify(last.payload) else [])
      && (IsRateLimited(last) ==> attempt + |r.probes| == MaxAttempts)
    decreases MaxAttempts - attempt
  {
    var r := AnalyzeFrom(url, attempt, probe, jitter);
    if IsRateLimited(probe(url, attempt)) && attempt < MaxAttempts - 1 {
      var rest := AnalyzeFrom(url, attempt + 1, probe, jitter);
      AnalyzeFromOutcome(url, attempt + 1, probe, jitter);
      assert r.urls == rest.urls && |r.probes| == 1 + |rest.probes|;
      assert attempt + |r.probes| - 1 == (attempt + 1) + |rest.probes| - 1;
    } else {
      assert |r.probes| == 1;
    }
  }

  /** `analyze_youtube_url(url)`: always a list, never an exception. */
  function Analyze(url: string, probe: (string, nat) -> ProbeOutcome, jitter: nat -> real): Analyzed {
    AnalyzeFrom(url, 0, probe, jitter)
  }

  /** Only a 429 is retried; anything else ends the loop on the spot. */
  lemma OnlyRateLimitRetried(url: string, probe: (string, nat) -> ProbeOutcome, jitter: nat -> real)
    requires !IsRateLimited(probe(url, 0))
    ensures |Analyze(url, probe, jitter).probes| == 1
    ensures Analyze(url, probe, jitter).waits == []
    ensures !probe(url, 0).Extracted? ==> Analyze(url, probe, jitter).urls == []
  {
  }

  /** Three 429s in a row: three probes, two waits, and an empty list. */
  lemma RateLimitExhausted(url: string, probe: (string, nat) -> ProbeOutcome, jitter: nat -> real)
    requires forall a :: 0 <= a < MaxAttempts ==> IsRateLimited(probe(url, a))
    ensures |Analyze(url, probe, jitter).probes| == 3
    ensures |Analyze(url, probe, jitter).waits| == 2
    ensures Analyze(url, probe, jitter).urls == []
  {
    assert IsRateLimited(probe(url, 0)) && IsRateLimited(probe(url, 1)) && IsRateLimited(probe(url, 2));
  }

  /** With `random.uniform(0, 5)` drawing from [0, 5), every wait lies in [10, 15). */
  lemma WaitsBounded(url: string, probe: (string, nat) -> ProbeOutcome, jitter: nat -> real)
    requires forall a: nat :: 0.0 <= jitter(a) < 5.0
    ensures forall w :: w in Analyze(url, probe, jitter).waits ==> 10.0 <= w < 15.0
  {
  }

  /** `collect_all_video_urls(urls)`: each URL's expansion, concatenated in input order. */
  function CollectAll(urls: seq<string>, probe: (string, nat) -> ProbeOutcome, jitter: nat -> real): (r: seq<string>)
    ensures |r| == TotalFound(urls, probe, jitter)
    decreases |urls|
  {
    if urls == [] then []
    else Analyze(urls[0], probe, jitter).urls + CollectAll(urls[1..], probe, jitter)
  }

  /** The sum of the per-URL counts `collect_all_video_urls` prints. */
  function TotalFound(urls: seq<string>, probe: (string, nat) -> ProbeOutcome, jitter: nat -> real): nat
    decreases |urls|
  {
    if urls == [] then 0
    else |Analyze(urls[0], probe, jitter).urls| + TotalFound(urls[1..], probe, jitter)
  }

  /** Expanding a batch in two parts and concatenating gives the same list. */
  lemma {:induction false} CollectAppend(a: seq<string>, b: seq<string>,
                                         probe: (string, nat) -> ProbeOutcome, jitter: nat -> real)
    ensures CollectAll(a + b, probe, jitter) == CollectAll(a, probe, jitter) + CollectAll(b, probe, jitter)
    decreases |a|
  {
    if a == [] {
      assert a + b == b;
    } else {
      assert (a + b)[1..] == a[1..] + b;
      assert (a + b)[0] == a[0];
      CollectAppend(a[1..], b, probe, jitter);
    }
  }

  /** Every collected URL is one that some input URL expanded to. */
  lemma {:induction false} CollectedComeFromInputs(urls: seq<string>, probe: (string, nat) -> ProbeOutcome,
                                                   jitter: nat -> real, u: string)
    requires u in CollectAll(urls, probe, jitter)
    ensures exists k :: 0 <= k < |urls| && u in Analyze(urls[k], probe, jitter).urls
    decreases |urls|
  {
    if u !in Analyze(urls[0], probe, jitter).urls {
      CollectedComeFromInputs(urls[1..], probe, jitter, u);
      var k :| 0 <= k < |urls[1..]| && u in Analyze(urls[1..][k], probe, jitter).urls;
      assert urls[1..][k] == urls[k + 1];
    }
  }
}
