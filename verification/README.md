# Video batch downloader: selection and expansion logic in Dafny

This project models the decision logic of a command-line tool that expands
a list of video-hosting URLs (single videos, playlists, channels) into
single-video URLs, and for each video picks the best video stream and the
best audio stream to merge. Only the deterministic core is modelled, each
piece separated from its I/O:

- **Identifier extraction** (`extract_video_id`, identical in
  `main_download.py` and `utils.py`). `VideoId` models the three regular
  expressions position by position. It proves that the second and third
  patterns never decide the outcome, so the whole function is a single
  left-to-right scan for the leftmost `/` or `v=` that is followed by 11
  characters of `[0-9A-Za-z_-]`.
- **Best video/audio pair** (the `try` body of `get_best_video_and_audio_url`).
  `Selection` holds the format records, the candidate filters, the optional
  `max_quality` ceiling, Python's first-maximum `max`, and the assembly of
  the result tuple, including its `KeyError`s.
- **Retry wrapper.** `Retrieval` covers main_download.py and `Utils` covers
  utils.py. The probe is a function from (target URL, attempt number) to
  what `extract_info` produced. The run returns the result or the re-raised
  error, the list of probes made, and the backoff delays 1, 2, 4, ….
- **URL classification and expansion** (`url_analyzer.py`). `UrlAnalyzer`
  models the payload shapes (playlist, single item, unsupported, not a
  dict) and the retry loop, which retries only a 429 and at most 3 times.
  It also models `collect_all_video_urls`.
- **Codec preference and container** (`video_format_utils.py`).
  `CodecChoice` models the priority scan `av01` > `vp09` > `avc1` > first
  codec, and the ordered container table.
- **Batch helpers** (`main_download.py`). `Batch` covers `clean_filename`,
  the SUCCESS/FAILED outcome of `process_video`, the
  `url,STATUS,path-or-N/A` result line, and the rule that `main` writes one
  line per video, in order.

`Common` holds the shared vocabulary: `Option`, `Result`, Python's
substring `in`, ASCII `lower()` and `str(int)`.

Three behaviours of the code that are easy to misread:
- A `ValueError` is caught by the retry loop's `except` and retried like a
  network failure, wherever it comes from: the selector's "No valid video
  formats found" and "No video formats found with quality …p or lower", or
  `extract_info` itself.
- `has_separate_audio` is true whenever any format carries audio, including
  the chosen video itself.
- `analyze_youtube_url` always makes at most 3 attempts; the count is a
  constant of the function.

## Model

| member | source | states |
|---|---|---|
| VideoId.ExtractIsGenericSearch | main_download.py:21-31 | the three-pattern cascade always returns what the first pattern's search returns; patterns 2 and 3 never change the outcome |
| VideoId.LaterPatternImpliesGeneric | main_download.py:23-25 | wherever an `embed/`, `v/`, `youtu.be/` or `watch?v=` pattern matches, the generic pattern (a `v=` or a `/` before the identifier) also matches at or after that position |
| VideoId.LaterSearchImpliesGeneric | main_download.py:27-30 | if a later pattern's `re.search` finds an identifier, the first pattern's search finds one too |
| VideoId.SearchFindsLeftmost | main_download.py:28-30 | `re.search` returns the capture of the leftmost match start, and returns nothing iff no position matches |
| VideoId.ScanVideoId | main_download.py:22-31 | the scanner returns None iff no `/` or `v=` is followed by 11 identifier characters; otherwise it returns the 11 characters after the leftmost such marker, and it agrees with `extract_video_id` |
| VideoId.ExtractedIdShape | utils.py:10-21 | an extracted identifier is exactly 11 characters, each from `[0-9A-Za-z_-]` |
| VideoId.CaptureAt | main_download.py:23-25 | a capture exists iff the pattern matches at that position, and it is 11 identifier characters |
| Selection.Filter | main_download.py:53 | a list comprehension keeps exactly the formats that pass its test; when every format passes, it returns the list unchanged |
| Selection.FilterAppend | main_download.py:74 | a comprehension keeps probe order and duplicates: filtering a concatenation concatenates the filtered parts |
| Selection.FilterTwice | main_download.py:53-67 | the candidate comprehension followed by the ceiling comprehension equals one comprehension by the conjunction of both tests |
| Selection.FirstMaxLifts | main_download.py:71-78 | `max` over a comprehension returns the format at the first position of the original list whose rank no kept format beats, with every earlier kept format ranked strictly lower |
| Selection.FirstMaxWhereUnique | main_download.py:71-78 | only one position of the probe's list can be that first maximum, so the tie-break fixes the choice |
| Selection.ApplyCeiling | main_download.py:66-67 | with a truthy `max_quality`, keeps exactly the formats with height ≤ the ceiling; with 0 or None it keeps the list unchanged |
| Selection.MaxBy | main_download.py:71 | Python's `max` returns an element that nothing ranks above and that ranks strictly above every earlier element (first maximum wins) |
| Selection.FirstMaxUnique | main_download.py:78 | at most one index is a first maximum, so the `max` result is fully determined by the ranking |
| Selection.ErrorMessage | main_download.py:69 | the under-ceiling error message names the ceiling as `<q>p`; a `KeyError` renders as its key in single quotes |
| Selection.ChooseVideo | main_download.py:53-71 | fails with "No valid video formats found" iff there is no candidate; fails naming the ceiling iff there are candidates but none under a truthy ceiling; otherwise picks the format at the first position of the probe's list, among candidates within the ceiling, whose `(height, tbr or 0)` no such candidate beats |
| Selection.ChooseAudio | main_download.py:74-78 | an audio format is chosen iff any format carries audio; it is the format at the first position of the probe's list, among audio-bearing formats, whose `(abr or 0, tbr or 0)` none of them beats |
| Selection.Assemble | main_download.py:72-89 | succeeds iff the chosen video has `url` and `ext` and the chosen audio, if any, has both too; otherwise the `KeyError` names the audio's missing key first, then the video's; `audio_url`/`audio_ext` are present iff `has_separate_audio`; `has_separate_audio` holds iff some format carries audio; URLs, extensions, title (default "Unknown") and resolution come from the chosen formats; a missing `url`/`ext` raises `KeyError` |
| Selection.SelectBest | main_download.py:53-89 | a `ValueError` of the video choice passes through unchanged; the selection succeeds iff a video is chosen and the chosen video and audio carry `url` and `ext`; on success the video URL and extension are the chosen video's and the audio URL the chosen audio's |
| Selection.VideoFields | main_download.py:85-89 | the video `url` and `ext` are looked up after the audio keys; a missing one is a `KeyError` for that key |
| Selection.SelectionInvariants | main_download.py:72-83 | for every successful selection, `audio_url` and `audio_ext` are present iff `has_separate_audio`, and `video_has_audio` implies `has_separate_audio` |
| Selection.ResolutionRespectsCeiling | main_download.py:66-86 | the resolution label is `str(height)+"p"` for a video candidate whose height is within the ceiling, and it reads back as an integer followed by `p` |
| Selection.ZeroCeilingIsNoCeiling | main_download.py:66 | `max_quality=0` is falsy and selects exactly as no ceiling |
| Selection.ChooseVideoPicksFirstMax | main_download.py:53-71 | conversely, whenever a position of the probe's list is the first maximum of `(height, tbr or 0)` among candidates within the ceiling, that format is the one chosen |
| Selection.LadderNoCeiling | main_download.py:71 | for heights 360/480/720 with rising bitrates and no ceiling, the 720p format is chosen |
| Selection.LadderCeiling480 | main_download.py:66-71 | with ceiling 480 the 480p format is chosen |
| Selection.LadderCeiling144 | main_download.py:68-69 | with ceiling 144 the selection fails with the under-ceiling error for 144 |
| Retrieval.RetryFrom | main_download.py:47-99 | at most `max_retries` probes, all of the same target; a delay of `2^a` after each failed attempt `a` except the last; every attempt before the last failed with a caught exception; the result is the last attempt's; a caught failure is re-raised only after all attempts; `max_retries ≤ 0` gives the generic failure without probing |
| Retrieval.ProbeValueErrorRetried | main_download.py:47-97 | a `ValueError` raised by the probe itself is retried: three failing probes give sleeps of 1 and 2 seconds and then re-raise that error |
| Retrieval.Fetch | main_download.py:33-50 | no identifier means `ValueError` with no probe; otherwise every probe targets `https://www.youtube.com/watch?v=` + id, and the probe count and backoff schedule are bounded as in the loop |
| Retrieval.SuccessComesFromLastProbe | main_download.py:48-89 | a successful result is the selection computed from the payload of the last probe made |
| Retrieval.FinalFailureUsesAllAttempts | main_download.py:91-97 | a re-raised `DownloadError`, `RequestException` or `ValueError` means all `max_retries` probes were made, with `max_retries-1` sleeps between them |
| Retrieval.BackoffDoubles | main_download.py:93-95 | the first sleep is 1 second and each further sleep doubles the previous one |
| Utils.SelectBest | utils.py:43-65 | fails with "No valid video formats found" iff no format is a video candidate, and never with the under-ceiling error |
| Utils.SelectBestIsCeilingFree | utils.py:43-65 | utils.py's selection equals main_download.py's with `max_quality=None` on every payload |
| Utils.Fetch | utils.py:23-37 | no identifier means `ValueError` before any probe; at most `max_retries` probes with sleeps 1, 2, 4, … |
| Utils.RetryCongruent | utils.py:37-74 | the retry loop depends on the selector only through its results |
| Utils.FetchIsCeilingFree | utils.py:23-74 | utils.py's `get_best_video_and_audio_url` gives the same probes, sleeps and result or error as main_download.py's with `max_quality=None` |
| UrlAnalyzer.PlaylistUrls | url_analyzer.py:21-23 | the entries' truthy `url`s; a non-dict entry makes the whole result fail (then `[]`) |
| UrlAnalyzer.PlaylistKeepsOrder | url_analyzer.py:23 | a playlist yields each entry's non-empty `url` in the original order, skipping missing and empty ones |
| UrlAnalyzer.PlaylistExample | url_analyzer.py:21-23 | three entries with the middle one lacking a URL give the other two, in order |
| UrlAnalyzer.PlaylistBeforeSingle | url_analyzer.py:21-24 | the playlist check comes first: a playlist is expanded even when its `webpage_url` is on youtube.com |
| UrlAnalyzer.Classify | url_analyzer.py:20-32 | non-dict and unsupported payloads give `[]`; a single item gives a truthy `webpage_url`, else the `url`, and gives nothing exactly when both are missing |
| UrlAnalyzer.AsWrittenYieldsNone | url_analyzer.py:26 | as written, a `_type == 'url'` payload with neither `webpage_url` nor `url` yields `[None]` |
| UrlAnalyzer.ClassifyDropsOnlyNone | url_analyzer.py:24-26 | the corrected classification equals the as-written one element for element, except that the `[None]` case becomes `[]` |
| UrlAnalyzer.AnalyzeFrom | url_analyzer.py:12-48 | 1 to 3 probes of the same URL, one wait fewer than probes, and each wait is 10 s plus that attempt's jitter |
| UrlAnalyzer.AnalyzeFromOutcome | url_analyzer.py:15-48 | every probe but the last hit `HTTP Error 429`; the list is the last payload's classification, or `[]` on any exception; a final 429 means all 3 attempts were used |
| UrlAnalyzer.OnlyRateLimitRetried | url_analyzer.py:43-48 | any outcome other than a 429 ends the loop after one probe with no wait, and a non-payload outcome gives `[]` |
| UrlAnalyzer.RateLimitExhausted | url_analyzer.py:34-42 | three 429s in a row give 3 probes, 2 waits and `[]` |
| UrlAnalyzer.WaitsBounded | url_analyzer.py:37-39 | when the jitter lies in [0, 5), every wait lies in [10, 15) seconds |
| UrlAnalyzer.CollectAll | url_analyzer.py:50-57 | the collected list's length is the sum of the per-URL result lengths |
| UrlAnalyzer.CollectAppend | url_analyzer.py:52-56 | collecting a batch in two parts and concatenating gives the same list (per-URL results concatenated in input order) |
| UrlAnalyzer.CollectedComeFromInputs | url_analyzer.py:52-56 | every collected URL comes from some input URL's expansion |
| CodecChoice.FirstWithFrom | video_format_utils.py:8-11 | finds the first codec whose lowercase form contains the key, or reports that none does |
| CodecChoice.PriorityScan | video_format_utils.py:7-13 | picks the first codec mentioning the first priority key that any codec mentions; finds nothing iff no codec mentions any priority key |
| CodecChoice.MentionedIsNonEmpty | video_format_utils.py:12-13 | a codec containing a priority key is non-empty, so the `if selected_codec: break` always fires |
| CodecChoice.SelectBestFormat | video_format_utils.py:1-24 | `(None, None)` iff `codecs` is empty or no priority codec matches and `codecs[0]` is `""`; otherwise the codec is an input element, in its original case, chosen by the av01 > vp09 > avc1 > first-codec rule, with its container |
| CodecChoice.PreferredCodecUnique | video_format_utils.py:3-17 | the priority rule determines a single codec |
| CodecChoice.FirstAv01Wins | video_format_utils.py:7-22 | if any codec mentions `av01`, the first such codec is chosen, in an mp4 container |
| CodecChoice.TableLookup | video_format_utils.py:44-49 | the table lookup only ever returns `'mp4'` or `'webm'` |
| CodecChoice.GetOptimalFormat | video_format_utils.py:26-49 | returns only `'mp4'` or `'webm'`; `'webm'` iff the lowercased codec contains `vp09` but neither `av01` nor `avc1` |
| CodecChoice.ResolutionIrrelevant | video_format_utils.py:39-46 | the resolution never changes the container: the `avc1` 360p/480p special case agrees with the table |
| CodecChoice.UnknownCodecIsMp4 | video_format_utils.py:48-49 | a codec matching no table key gives `'mp4'` |
| CodecChoice.DocumentedExample | video_format_utils.py:51-55 | `['vp09.00.40.08','avc1.4d401f','av01.0.12M.08','vp09.00.50.08']` with `'720p'` gives `('mp4', 'av01.0.12M.08')` |
| Batch.CleanFilename | main_download.py:101-102 | the result contains none of the nine characters backslash, slash, star, question mark, colon, double quote, less-than, greater-than and bar, is no longer than the input, and keeps every other character with its multiplicity |
| Batch.CleanFilenameAppend | main_download.py:102 | cleaning distributes over concatenation, so the kept characters stay in their original order |
| Batch.CleanFilenameKeepsClean | main_download.py:102 | a name without forbidden characters is unchanged |
| Batch.CleanFilenameIdempotent | main_download.py:101-102 | cleaning twice equals cleaning once |
| Batch.ProcessVideo | main_download.py:104-128 | FAILED iff there is no output path; SUCCESS iff the selection succeeded, the muxer returned, and the file exists; the path on success is `<output_dir>/<clean title>.<video ext>` |
| Batch.ResultLineShape | main_download.py:161 | a FAILED item's line is `url,FAILED,N/A`; a SUCCESS line carries the output path |
| Batch.ResultLines | main_download.py:157-163 | one line per video URL, in order, each the result line of that URL's outcome |
| Batch.DownloadBatch | main_download.py:153-163 | the batch writes exactly as many lines as the expansion found videos |
| Batch.EveryLineNamesItsVideo | main_download.py:158-163 | line `i` starts with video URL `i` and a comma, and is `url,FAILED,N/A` when that item failed |
| Common.IntToStringRoundTrip | main_download.py:86 | the decimal rendering `str(height)` reads back as the same integer |

## Findings

| source | as written | input that shows it | evidently intended | confidence | as-written member | corrected member |
|---|---|---|---|---|---|---|
| url_analyzer.py:24-26 | the single-item branch returns `[info.get('webpage_url') or info.get('url')]` | payload `{'_type': 'url'}` with no `webpage_url` and no `url` gives `[None]` | the expansion contains only URL strings, so such a payload should contribute nothing | not executed; medium | UrlAnalyzer.AsWrittenYieldsNone | UrlAnalyzer.ClassifyDropsOnlyNone |

`UrlAnalyzer.ClassifyAsWritten` is the code as written. `UrlAnalyzer.Classify`
is the corrected classification, and `AnalyzeFrom`, `CollectAll` and the
batch use it.

## Left out

- The network probe (`yt_dlp.YoutubeDL.extract_info`) and `requests` exceptions are foreign calls. They are environment functions from (URL, attempt number) to an outcome, so a URL probed twice gets the same outcome at the same attempt number.
- Retrieval.Fetch: the `proxy` and `socket_timeout` options are not modelled. They only configure the foreign probe.
- Retrieval.Fetch: a probe that returns something other than a dict, or a `formats` value of `None`, is not modelled. A payload is always a record with optional `title` and `formats`.
- `time.sleep` is left out. Delays are returned as a trace of seconds, never slept.
- `random.uniform(0, 5)` is an environment function `jitter`. `UrlAnalyzer.WaitsBounded` states the [10, 15) bound under the assumption that the jitter lies in [0, 5).
- Selection.VideoRank: a `tbr` key that is present but `None` is modelled as 0. In Python it raises `TypeError` when two heights tie, because the video key has no `or 0` guard. Bitrates are integers, not floats, since only comparisons use them.
- Selection.Assemble: a `url` or `ext` key that is present with the value `None` is not distinguished from an absent key. The source's `best_video['url']` would then return `None` instead of raising `KeyError`, and the tuple would carry `None`; the model reports `MissingKey`. Each format field is a single optional value, to keep one case split per key.
- Selection.TitleOf: a `title` key present with the value `None` is not distinguished from an absent key. In the source `info.get('title', 'Unknown')` returns `None` there, `clean_filename(None)` raises `TypeError` in `process_video`, and the result is FAILED; the model uses "Unknown", so `Batch.ProcessVideo` can report SUCCESS for such a payload.
- UrlAnalyzer.AnalyzeFrom: uses the corrected classification, so for `{'_type': 'url'}` with neither `webpage_url` nor `url` it gives `[]` where the source gives `[None]`. The same holds for `UrlAnalyzer.CollectAll` and `Batch.DownloadBatch`, which therefore write no line for that payload where the source's `main` writes `None,FAILED,N/A`. The as-written behaviour is kept in `UrlAnalyzer.ClassifyAsWritten` (see Findings).
- CodecChoice.Mentions: `str.lower()` is ASCII-only here. Unicode case mapping is not modelled.
- `debug_print`, console output and the global `DEBUG` flag are left out. They do not affect results.
- `main_ping.py` (download-speed measurement) is left out. It is wall-clock timing, streaming HTTP and floating-point arithmetic.
- `moviepy_merger.py` is left out. The muxer is an environment function saying whether `merge_video_audio_moviepy` returned without raising. It is passed `audio_url` even when that is `None`.
- `main_analyze.py` and the argument parsing of `main` are left out. So are the input-file reading (`line.strip()`, blank lines skipped), the missing-input `sys.exit(1)`, `os.makedirs` and writing and flushing the result file.
- Batch.JoinPath: models POSIX `os.path.join` only for a second component that does not start with `/`. A cleaned title can never start with `/`.
- UrlAnalyzer.Payload: `_type`, `webpage_url` and `url` are strings when present. Values of other types are not modelled.
