/** The batch-download side of main_download.py: `clean_filename`, the
    SUCCESS/FAILED decision of `process_video`, the result line `main`
    writes for each video, and the one-line-per-URL rule of its loop. The
    muxer, `os.path.exists` and the probes are environment functions. */
module Batch {
  import opened Common
  import opened Selection
  import opened Retrieval
  import UrlAnalyzer

  // The nine characters `clean_filename` deletes: backslash, slash, star,
  // question mark, colon, double quote, less-than, greater-than, bar.
  predicate IsForbidden(c: char) {
    c == '\\' || c == '/' || c == '*' || c == '?' || c == ':' || c == '"' || c == '<' || c == '>' || c == '|'
  }

  /** `clean_filename`: the name with every forbidden character deleted. */
  function CleanFilename(s: string): (r: string)
    ensures forall i :: 0 <= i < |r| ==> !IsForbidden(r[i])
    ensures |r| <= |s|
    ensures forall c :: !IsForbidden(c) ==> multiset(r)[c] == multiset(s)[c]
    decreases |s|
  {
    if s == [] then []
    else
      var rest := CleanFilename(s[1..]);
      assert s == [s[0]] + s[1..];
      if IsForbidden(s[0]) then rest else [s[0]] + rest
  }

  /** Cleaning distributes over concatenation, so the kept characters stay
      in their original order. */
  lemma {:induction false} CleanFilenameAppend(a: string, b: string)
    ensures CleanFilename(a + b) == CleanFilename(a) + CleanFilename(b)
    decreases |a|
  {
    if a == [] {
      assert a + b == b;
    } else {
      assert (a + b)[1..] == a[1..] + b;
      CleanFilenameAppend(a[1..], b);
    }
  }

  /** A name without forbidden characters is left unchanged. */
  lemma {:induction false} CleanFilenameKeepsClean(s: string)
    requires forall i :: 0 <= i < |s| ==> !IsForbidden(s[i])
    ensures CleanFilename(s) == s
    decreases |s|
  {
    if s != [] {
      CleanFilenameKeepsClean(s[1..]);
    }
  }

  /** Cleaning twice is cleaning once. */
  lemma CleanFilenameIdempotent(s: string)
    ensures CleanFilename(CleanFilename(s)) == CleanFilename(s)
  {
    CleanFilenameKeepsClean(CleanFilename(s));
  }

  /** POSIX `os.path.join(dir, name)` for a `name` that does not start with
      `/` (a cleaned title never does). */
  function JoinPath(dir: string, name: string): string {
    if dir == [] || dir[|dir| - 1] == '/' then dir + name else dir + "/" + name
  }

  datatype Status = Success | Failed

  /** What `process_video` returns: the status and the output path, if any. */
  datatype Outcome = Outcome(status: Status, path: Option<string>)

  /** The collaborators `process_video` calls: the probe, whether
      `merge_video_audio_moviepy(video, audio, path)` returns without raising,
      and `os.path.exists`. */
  datatype Env = Env(
    probe: (string, nat) -> ProbeOutcome,
    merge: (string, Option<string>, string) -> bool,
    fileExists: string -> bool)

  /** `get_best_video_and_audio_url`'s default `max_retries`. */
  const DefaultRetries: int := 3

  /** Where the merged file for a selection goes: `{clean title}.{video ext}`
      inside the output directory. */
  function OutputPath(outputDir: string, c: Chosen): string {
    JoinPath(outputDir, CleanFilename(c.title) + "." + c.videoExt)
  }

  /** The selection succeeded, the muxer returned, and the file exists. */
  predicate Delivered(fetched: Result<Chosen, FetchError>, outputDir: string, env: Env) {
    && fetched.Ok?
    && env.merge(fetched.value.videoUrl, fetched.value.audioUrl, OutputPath(outputDir, fetched.value))
    && env.fileExists(OutputPath(outputDir, fetched.value))
  }

  /** `process_video(video_url, output_dir, max_quality)`: every exception is
      caught and becomes `("FAILED", None)`. */
  function ProcessVideo(url: string, outputDir: string, maxQuality: Option<int>, env: Env): (o: Outcome)
    ensures o.status == Failed <==> o.path.None?
    ensures o.status == Success <==> Delivered(Fetch(url, DefaultRetries, maxQuality, env.probe).result, outputDir, env)
    ensures o.status == Success ==>
      o.path == Some(OutputPath(outputDir, Fetch(url, DefaultRetries, maxQuality, env.probe).result.value))
  {
    match Fetch(url, DefaultRetries, maxQuality, env.probe).result
    case Err(_) => Outcome(Failed, None)
    case Ok(c) =>
      var path := OutputPath(outputDir, c);
      if !env.merge(c.videoUrl, c.audioUrl, path) then Outcome(Failed, None)
      else if env.fileExists(path) then Outcome(Success, Some(path))
      else Outcome(Failed, None)
  }

  function StatusText(s: Status): string {
    match s
    case Success => "SUCCESS"
    case Failed => "FAILED"
  }

  /** `f"{video_url},{status},{output_path if output_path else 'N/A'}\n"`. */
  function ResultLine(url: string, o: Outcome): string {
    url + "," + StatusText(o.status) + "," + (if Truthy(o.path) then o.path.value else "N/A") + "\n"
  }

  /** A failed item's line always ends in `,FAILED,N/A`; a successful one
      carries the output path. */
  lemma ResultLineShape(url: string, o: Outcome)
    requires o.status == Failed <==> o.path.None?
    ensures o.status == Failed ==> ResultLine(url, o) == url + ",FAILED,N/A\n"
    ensures o.status == Success && o.path.value != "" ==>
      ResultLine(url, o) == url + ",SUCCESS," + o.path.value + "\n"
  {
  }

  /** The `for video_url in all_video_urls` loop of `main`: one line per
      video, in order. */
  function ResultLines(videoUrls: seq<string>, outputDir: string, maxQuality: Option<int>, env: Env): (lines: seq<string>)
    ensures |lines| == |videoUrls|
    ensures forall i :: 0 <= i < |videoUrls| ==>
      lines[i] == ResultLine(videoUrls[i], ProcessVideo(videoUrls[i], outputDir, maxQuality, env))
    decreases |videoUrls|
  {
    if videoUrls == [] then []
    else
      var rest := ResultLines(videoUrls[1..], outputDir, maxQuality, env);
      [ResultLine(videoUrls[0], ProcessVideo(videoUrls[0], outputDir, maxQuality, env))] + rest
  }

  /** `main` after the argument checks: expand every input URL, then write
      one line per expanded video. */
  function DownloadBatch(inputUrls: seq<string>, analyzeProbe: (string, nat) -> UrlAnalyzer.ProbeOutcome,
                         jitter: nat -> real, outputDir: string, maxQuality: Option<int>, env: Env): (lines: seq<string>)
    ensures |lines| == UrlAnalyzer.TotalFound(inputUrls, analyzeProbe, jitter)
  {
    ResultLines(UrlAnalyzer.CollectAll(inputUrls, analyzeProbe, jitter), outputDir, maxQuality, env)
  }

  /** Every written line starts with its video URL and a comma, and a
      FAILED item's line is exactly `url,FAILED,N/A`. */
  lemma EveryLineNamesItsVideo(videoUrls: seq<string>, outputDir: string, maxQuality: Option<int>, env: Env, i: nat)
    requires i < |videoUrls|
    ensures var line := ResultLines(videoUrls, outputDir, maxQuality, env)[i];
      |line| > |videoUrls[i]| && line[..|videoUrls[i]| + 1] == videoUrls[i] + ","
    ensures ProcessVideo(videoUrls[i], outputDir, maxQuality, env).status == Failed ==>
      ResultLines(videoUrls, outputDir, maxQuality, env)[i] == videoUrls[i] + ",FAILED,N/A\n"
  {
    var o := ProcessVideo(videoUrls[i], outputDir, maxQuality, env);
    LineStartsWithUrl(videoUrls[i], o);
    ResultLineShape(videoUrls[i], o);
  }

  lemma LineStartsWithUrl(url: string, o: Outcome)
    ensures |ResultLine(url, o)| > |url| && ResultLine(url, o)[..|url| + 1] == url + ","
  {
    var rest := StatusText(o.status) + "," + (if Truthy(o.path) then o.path.value else "N/A") + "\n";
    assert ResultLine(url, o) == (url + ",") + rest;
  }
}
