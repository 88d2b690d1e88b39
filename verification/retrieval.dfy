/** The retry wrapper of `get_best_video_and_audio_url` in main_download.py:
    identifier extraction, then up to `max_retries` probes of the canonical
    watch page with exponential backoff. The probe is an environment function
    from (target URL, attempt number) to what that call of `extract_info`
    produced; sleeps are returned as a trace of delays in seconds. */
module Retrieval {
  import opened Common
  import opened VideoId
  import opened Selection

  /** Which exception a probe raised: `yt_dlp.utils.DownloadError`,
      `requests.exceptions.RequestException`, a `ValueError` (or a subclass
      such as `UnicodeError`), or anything else. */
  datatype ProbeErrorKind = DownloadError | RequestError | ValueFailure | OtherError

  /** What one call of `extract_info` produced. */
  datatype ProbeOutcome = Probed(info: Info) | ProbeRaised(kind: ProbeErrorKind, message: string)

  /** Everything `get_best_video_and_audio_url` can raise. */
  datatype FetchError =
    | NoVideoId(url: string)
    | SelectionFailed(cause: SelectError)
    | ProbeFailed(kind: ProbeErrorKind, message: string)
    | AttemptsExhausted

  /** The result together with the probes made (their target URLs, in order)
      and the backoff sleeps taken between them. */
  datatype Fetched = Fetched(result: Result<Chosen, FetchError>, probes: seq<string>, delays: seq<nat>)

  /** The page every probe asks for. */
  const WatchPrefix: string := "https://www.youtube.com/watch?v="

  function WatchUrl(id: string): string {
    WatchPrefix + id
  }

  /** The exceptions the `except` clause catches: `DownloadError`,
      `RequestException` and `ValueError`, wherever in the `try` body they
      are raised (the probe itself or the selector's two `ValueError`s). A
      `KeyError` from a missing `url`/`ext` and any other exception escape
      the loop at once. */
  predicate Retryable(e: FetchError) {
    match e
    case ProbeFailed(kind, _) => kind != OtherError
    case SelectionFailed(cause) => !cause.MissingKey?
    case _ => false
  }

  /** One pass through the `try` body. */
  function AttemptOnce(outcome: ProbeOutcome, select: Info -> Result<Chosen, SelectError>): Result<Chosen, FetchError> {
    match outcome
    case ProbeRaised(kind, message) => Err(ProbeFailed(kind, message))
    case Probed(info) =>
      match select(info)
      case Ok(c) => Ok(c)
      case Err(e) => Err(SelectionFailed(e))
  }

  /** The attempt raised an exception the `except` clause catches. */
  predicate FailsRetryably(outcome: ProbeOutcome, select: Info -> Result<Chosen, SelectError>) {
    var res := AttemptOnce(outcome, select);
    res.Err? && Retryable(res.error)
  }

  /** The `for attempt in range(max_retries)` loop from `attempt` on. */
  function RetryFrom(target: string, attempt: nat, maxRetries: int,
                     select: Info -> Result<Chosen, SelectError>,
                     probe: (string, nat) -> ProbeOutcome): (r: Fetched)
    ensures attempt >= maxRetries ==> r == Fetched(Err(AttemptsExhausted), [], [])
    ensures attempt < maxRetries ==> 1 <= |r.probes| <= maxRetries - attempt
    ensures forall k :: 0 <= k < |r.probes| ==> r.probes[k] == target
    ensures |r.probes| > 0 ==> |r.delays| == |r.probes| - 1
    ensures forall k :: 0 <= k < |r.delays| ==> r.delays[k] == Pow2(attempt + k)
    ensures forall a :: attempt <= a < attempt + |r.probes| - 1 ==> FailsRetryably(probe(target, a), select)
    ensures |r.probes| > 0 ==> r.result == AttemptOnce(probe(target, attempt + |r.probes| - 1), select)
    ensures attempt < maxRetries && r.result.Err? && Retryable(r.result.error) ==>
      |r.probes| == maxRetries - attempt
    decreases maxRetries - attempt
  {
    if attempt >= maxRetries then Fetched(Err(AttemptsExhausted), [], [])
    else
      var res := AttemptOnce(probe(target, attempt), select);
      if res.Ok? || !Retryable(res.error) || attempt >= maxRetries - 1 then Fetched(res, [target], [])
      else
        var rest := RetryFrom(target, attempt + 1, maxRetries, select, probe);
        Fetched(rest.result, [target] + rest.probes, [Pow2(attempt)] + rest.delays)
  }

  /** main_download.py's `get_best_video_and_audio_url(video_url, proxy,
      max_retries, max_quality)`. */
  function Fetch(url: string, maxRetries: int, maxQuality: Option<int>,
                 probe: (string, nat) -> ProbeOutcome): (r: Fetched)
    ensures ExtractVideoId(url).None? ==> r == Fetched(Err(NoVideoId(url)), [], [])
    ensures ExtractVideoId(url).Some? ==>
      forall k :: 0 <= k < |r.probes| ==> r.probes[k] == WatchUrl(ExtractVideoId(url).value)
    ensures |r.probes| <= if maxRetries < 0 then 0 else maxRetries
    ensures ExtractVideoId(url).Some? && maxRetries <= 0 ==> r == Fetched(Err(AttemptsExhausted), [], [])
    ensures forall k :: 0 <= k < |r.delays| ==> r.delays[k] == Pow2(k)
    ensures |r.probes| > 0 ==> |r.delays| == |r.probes| - 1
  {
    match ExtractVideoId(url)
    case None => Fetched(Err(NoVideoId(url)), [], [])
    case Some(id) => RetryFrom(WatchUrl(id), 0, maxRetries, info => SelectBest(info, maxQuality), probe)
  }

  /** A success is the selection computed from the last probe's payload, and
      every earlier probe failed with a caught exception. */
  lemma SuccessComesFromLastProbe(url: string, maxRetries: int, maxQuality: Option<int>,
                                  probe: (string, nat) -> ProbeOutcome)
    ensures var r := Fetch(url, maxRetries, maxQuality, probe);
      r.result.Ok? ==>
        && ExtractVideoId(url).Some?
        && |r.probes| >= 1
        && var last := probe(WatchUrl(ExtractVideoId(url).value), |r.probes| - 1);
           last.Probed? && SelectBest(last.info, maxQuality) == Ok(r.result.value)
  {
  }

  /** The final caught failure is re-raised only once every attempt is used. */
  lemma FinalFailureUsesAllAttempts(url: string, maxRetries: int, maxQuality: Option<int>,
                                    probe: (string, nat) -> ProbeOutcome)
    requires ExtractVideoId(url).Some? && maxRetries > 0
    requires Fetch(url, maxRetries, maxQuality, probe).result.Err?
    requires Retryable(Fetch(url, maxRetries, maxQuality, probe).result.error)
    ensures |Fetch(url, maxRetries, maxQuality, probe).probes| == maxRetries
    ensures |Fetch(url, maxRetries, maxQuality, probe).delays| == maxRetries - 1
  {
  }

  /** The backoff schedule 1, 2, 4, ...: each sleep doubles the previous one. */
  lemma BackoffDoubles(url: string, maxRetries: int, maxQuality: Option<int>,
                       probe: (string, nat) -> ProbeOutcome)
    ensures var d := Fetch(url, maxRetries, maxQuality, probe).delays;
      (|d| > 0 ==> d[0] == 1) && forall k :: 0 < k < |d| ==> d[k] == 2 * d[k - 1]
  {
    var d := Fetch(url, maxRetries, maxQuality, probe).delays;
    forall k | 0 < k < |d|
      ensures d[k] == 2 * d[k - 1]
    {
      assert d[k] == Pow2(k) && d[k - 1] == Pow2(k - 1);
    }
  }

  /** A `ValueError` raised by `extract_info` itself is caught and retried
      like the others: three failing probes, sleeps of 1 and 2 seconds, then
      the last error is re-raised. */
  lemma ProbeValueErrorRetried(target: string, select: Info -> Result<Chosen, SelectError>,
                               probe: (string, nat) -> ProbeOutcome, message: string)
    requires forall a: nat :: probe(target, a) == ProbeRaised(ValueFailure, message)
    ensures RetryFrom(target, 0, 3, select, probe)
         == Fetched(Err(ProbeFailed(ValueFailure, message)), [target, target, target], [1, 2])
  {
  }
}
