/** utils.py's `get_best_video_and_audio_url(video_url, proxy, max_retries)`:
    the same probe-and-retry code as main_download.py without the
    `max_quality` ceiling. Its `extract_video_id` is textually identical to
    main_download.py's and is the one `VideoId.ExtractVideoId`. */
module Utils {
  import opened Common
  import opened VideoId
  import opened Selection
  import opened Retrieval

  /** Lines 43-65: filter, choose, assemble, with no ceiling step. */
  function SelectBest(info: Info): (r: Result<Chosen, SelectError>)
    ensures r == Err(NoValidFormats) <==> forall f :: f in FormatsOf(info) ==> !IsVideoCandidate(f)
    ensures r.Err? ==> !r.error.NoFormatsUnderQuality?
  {
    var videos := Filter(FormatsOf(info), IsVideoCandidate);
    if |videos| == 0 then Err(NoValidFormats)
    else
      var best := videos[MaxBy(videos, VideoRank)];
      assert best in videos;
      Assemble(info, best)
  }

  /** Same filters, keys and errors as main_download.py with `max_quality=None`. */
  lemma SelectBestIsCeilingFree(info: Info)
    ensures SelectBest(info) == Selection.SelectBest(info, None)
  {
  }

  /** Lines 24-74: identifier extraction, then the shared retry loop. */
  function Fetch(url: string, maxRetries: int, probe: (string, nat) -> ProbeOutcome): (r: Fetched)
    ensures ExtractVideoId(url).None? ==> r == Fetched(Err(NoVideoId(url)), [], [])
    ensures |r.probes| <= if maxRetries < 0 then 0 else maxRetries
    ensures forall k :: 0 <= k < |r.delays| ==> r.delays[k] == Pow2(k)
  {
    match ExtractVideoId(url)
    case None => Fetched(Err(NoVideoId(url)), [], [])
    case Some(id) => RetryFrom(WatchUrl(id), 0, maxRetries, SelectBest, probe)
  }

  /** The retry loop only sees the selector through its results: two
      selectors that agree on every payload give the same run. */
  lemma {:induction false} RetryCongruent(target: string, attempt: nat, maxRetries: int,
                                          s1: Info -> Result<Chosen, SelectError>,
                                          s2: Info -> Result<Chosen, SelectError>,
                                          probe: (string, nat) -> ProbeOutcome)
    requires forall info :: s1(info) == s2(info)
    ensures RetryFrom(target, attempt, maxRetries, s1, probe) == RetryFrom(target, attempt, maxRetries, s2, probe)
    decreases maxRetries - attempt
  {
    if attempt < maxRetries {
      assert AttemptOnce(probe(target, attempt), s1) == AttemptOnce(probe(target, attempt), s2);
      RetryCongruent(target, attempt + 1, maxRetries, s1, s2, probe);
    }
  }

  /** utils.py's whole function equals main_download.py's with no ceiling:
      same probes, same sleeps, same result or error. */
  lemma FetchIsCeilingFree(url: string, maxRetries: int, probe: (string, nat) -> ProbeOutcome)
    ensures Fetch(url, maxRetries, probe) == Retrieval.Fetch(url, maxRetries, None, probe)
  {
    if ExtractVideoId(url).Some? {
      var select := (info: Info) => Selection.SelectBest(info, None);
      forall info: Info ensures SelectBest(info) == select(info) {
        SelectBestIsCeilingFree(info);
      }
      RetryCongruent(WatchUrl(ExtractVideoId(url).value), 0, maxRetries, SelectBest, select, probe);
    }
  }
}
