/**
 * The `GET /api/download-pro` route: query validation, the extractor run that
 * resolves a direct media locator, the best-effort title lookup, and the
 * transcoder command line whose output is streamed back with download
 * headers.
 */
module DownloadPro {
  import opened Js
  import opened Process
  import opened UrlPatterns
  import opened Filenames

  datatype MediaKind = Video | Audio

  /** `!format || !['video', 'audio'].includes(format)` rejects everything
      except the two exact words. */
  function KindOf(format: Option<string>): (k: Option<MediaKind>)
    ensures k == Some(Video) <==> format == Some("video")
    ensures k == Some(Audio) <==> format == Some("audio")
  {
    if format == Some("video") then Some(Video)
    else if format == Some("audio") then Some(Audio)
    else None
  }

  /** The heights the quality table knows. */
  predicate IsTableHeight(q: string)
  {
    q == "360" || q == "480" || q == "720" || q == "1080"
  }

  /** The video quality table of `extractMediaUrl`. */
  const VideoSelectors: map<string, string> := map[
    "360" := "bestvideo[height<=360]+bestaudio",
    "480" := "bestvideo[height<=480]+bestaudio",
    "720" := "bestvideo[height<=720]+bestaudio",
    "1080" := "bestvideo[height<=1080]+bestaudio",
    "best" := "best"]

  /** The format selector: `bestaudio` for audio, otherwise
      `qualityMap[quality] || 'best'`. */
  function Selector(kind: MediaKind, quality: string): (sel: string)
    ensures kind == Audio ==> sel == "bestaudio"
    ensures kind == Video && IsTableHeight(quality) ==> sel == "bestvideo[height<=" + quality + "]+bestaudio"
    ensures kind == Video && !IsTableHeight(quality) ==> sel == "best"
  {
    if kind == Audio then "bestaudio" else Or(Lookup(VideoSelectors, quality), "best")
  }

  /** The argument vector `extractMediaUrl` builds with `push`. */
  method MediaUrlArgs(url: string, kind: MediaKind, quality: string) returns (args: seq<string>)
    ensures args == ["-g", "--no-warnings", "--no-playlist", "-f", Selector(kind, quality), url]
  {
    args := ["-g", "--no-warnings", "--no-playlist"];
    if kind == Audio {
      args := args + ["-f", "bestaudio"];
    } else {
      args := args + ["-f", Or(Lookup(VideoSelectors, quality), "best")];
    }
    args := args + [url];
  }

  /** The extractor reads the selector as the value of `-f` and the link as
      the last argument. */
  lemma SelectorIsRead(url: string, kind: MediaKind, quality: string)
    ensures var args := ["-g", "--no-warnings", "--no-playlist", "-f", Selector(kind, quality), url];
      OptionValue(args, "-f") == Some(Selector(kind, quality)) && args[|args| - 1] == url
  {
    var args := ["-g", "--no-warnings", "--no-playlist", "-f", Selector(kind, quality), url];
    assert args[3] == "-f" && "-f" !in args[..3];
  }

  /** How `extractMediaUrl` settles: on exit code 0 the first line of the
      trimmed output (possibly empty), otherwise an error. */
  function ExtractMediaUrl(run: Exit<string>): (r: Settled<string>)
    ensures r.Resolved? <==> run.ExitedZero()
    ensures r.Resolved? ==> r.value <= Trim(run.stdout) && '\n' !in r.value
    ensures r.Resolved? && |r.value| < |Trim(run.stdout)| ==> Trim(run.stdout)[|r.value|] == '\n'
    ensures run.SpawnError? ==> r == Rejected("yt-dlp spawn error: " + run.message)
    ensures run.Closed? && !run.ExitedZero() ==> r == Rejected("yt-dlp failed: " + run.stderr)
  {
    match run
    case SpawnError(message) => Rejected("yt-dlp spawn error: " + message)
    case Closed(code, stdout, stderr) =>
      if code == Some(0) then Resolved(FirstLine(Trim(stdout)))
      else Rejected("yt-dlp failed: " + stderr)
  }

  /** The locator is empty exactly when the extractor printed nothing but
      white space; otherwise it starts with a character that is not white
      space. */
  lemma LocatorEmptyIffBlank(stdout: string)
    ensures FirstLine(Trim(stdout)) == "" <==> AllWhitespace(stdout)
    ensures FirstLine(Trim(stdout)) != "" ==> !IsWhitespace(FirstLine(Trim(stdout))[0])
  {
    TrimEmptyIffAllWhitespace(stdout);
    TrimHasNoOuterWhitespace(stdout);
  }

  /** `getVideoTitle`: never fails, `download` by default. */
  function GetVideoTitle(run: Exit<string>): (title: string)
    ensures title != ""
  {
    TrimmedOutputOr(run, "download")
  }

  /** The audio bitrate table of `streamAudio`. */
  const Bitrates: map<string, string> := map["128" := "128k", "192" := "192k", "256" := "256k", "320" := "320k", "best" := "256k"]

  predicate IsTableBitrate(q: string)
  {
    q == "128" || q == "192" || q == "256" || q == "320"
  }

  /** `bitrateMap[quality] || '256k'` */
  function AudioBitrate(quality: string): (b: string)
    ensures IsTableBitrate(quality) ==> b == quality + "k"
    ensures !IsTableBitrate(quality) ==> b == "256k"
  {
    Or(Lookup(Bitrates, quality), "256k")
  }

  /** The transcoder command line of `streamAudio`. */
  function AudioArgs(mediaUrl: string, quality: string): (args: seq<string>)
    ensures |args| == 12 && args[..2] == ["-i", mediaUrl] && args[2] == "-vn"
    ensures args[3..7] == ["-ar", "44100", "-ac", "2"]
    ensures args[7..9] == ["-b:a", AudioBitrate(quality)] && args[9..11] == ["-f", "mp3"]
    ensures args[11] == "pipe:1"
  {
    ["-i", mediaUrl, "-vn", "-ar", "44100", "-ac", "2", "-b:a", AudioBitrate(quality), "-f", "mp3", "pipe:1"]
  }

  /** The transcoder reads the audio command line as 44.1 kHz stereo MP3 at
      the table bitrate, written to standard output, for a locator that is
      not itself an option name. */
  lemma AudioArgsRead(mediaUrl: string, quality: string)
    requires mediaUrl == [] || mediaUrl[0] != '-'
    ensures var args := AudioArgs(mediaUrl, quality);
      && OptionValue(args, "-i") == Some(mediaUrl)
      && OptionValue(args, "-ar") == Some("44100")
      && OptionValue(args, "-ac") == Some("2")
      && OptionValue(args, "-b:a") == Some(AudioBitrate(quality))
      && OptionValue(args, "-f") == Some("mp3")
      && args[|args| - 1] == "pipe:1"
  {
    var args := AudioArgs(mediaUrl, quality);
    assert mediaUrl != "-ar" && mediaUrl != "-ac" && mediaUrl != "-b:a" && mediaUrl != "-f";
    IndexOfAt(args, "-i", 0);
    IndexOfAt(args, "-ar", 3);
    IndexOfAt(args, "-ac", 5);
    IndexOfAt(args, "-b:a", 7);
    assert AudioBitrate(quality) != "-f";
    IndexOfAt(args, "-f", 9);
  }

  /** The resolution table of `streamVideo`. */
  const Resolutions: map<string, string> := map["360" := "640x360", "480" := "854x480", "720" := "1280x720", "1080" := "1920x1080"]

  /** The transcoder command line of `streamVideo` before any scaling. */
  function BaseVideoArgs(mediaUrl: string): seq<string>
  {
    ["-i", mediaUrl, "-c:v", "libx264", "-preset", "ultrafast", "-crf", "23", "-c:a", "aac", "-b:a", "192k",
     "-movflags", "frag_keyframe+empty_moov", "-f", "mp4", "pipe:1"]
  }

  /** `resolutionMap[quality]`: a known height has a frame size. */
  lemma ResolutionsCoverTableHeights(quality: string)
    ensures Truthy(Lookup(Resolutions, quality)) <==> IsTableHeight(quality)
  {
  }

  /** `streamVideo`'s edit of its argument vector as written: the scale
      filter is spliced in at index 3, between `-c:v` and its codec, so the
      codec option receives `-vf` and `libx264` is left over. */
  method VideoArgsAsWritten(mediaUrl: string, quality: string) returns (args: seq<string>)
    ensures !IsTableHeight(quality) ==> args == BaseVideoArgs(mediaUrl)
    ensures IsTableHeight(quality) ==>
      && |args| == |BaseVideoArgs(mediaUrl)| + 2
      && args[..3] + args[5..] == BaseVideoArgs(mediaUrl)
      && args[3..5] == ["-vf", "scale=" + Resolutions[quality]]
      && args[2] == "-c:v" && args[3] == "-vf" && args[5] == "libx264"
  {
    var resolution := Lookup(Resolutions, quality);
    args := BaseVideoArgs(mediaUrl);
    if Truthy(resolution) {
      args := Splice(args, 3, ["-vf", "scale=" + resolution.value]);
    }
  }

  /** `streamVideo`'s edit of its argument vector with the scale filter
      placed after the codec pair: the two inserted elements form their own
      option and every option of the base vector keeps its value. */
  method VideoArgs(mediaUrl: string, quality: string) returns (args: seq<string>)
    ensures !IsTableHeight(quality) ==> args == BaseVideoArgs(mediaUrl)
    ensures IsTableHeight(quality) ==>
      && |args| == |BaseVideoArgs(mediaUrl)| + 2
      && args[..4] + args[6..] == BaseVideoArgs(mediaUrl)
      && args[2..4] == ["-c:v", "libx264"]
      && args[4..6] == ["-vf", "scale=" + Resolutions[quality]]
  {
    var resolution := Lookup(Resolutions, quality);
    args := BaseVideoArgs(mediaUrl);
    if Truthy(resolution) {
      args := Splice(args, 4, ["-vf", "scale=" + resolution.value]);
    }
  }

  /** The option reading of the two command lines for a 720p request, with
      a locator that is not itself an option name. */
  lemma CodecOptionExample(mediaUrl: string)
    requires mediaUrl != "-c:v" && mediaUrl != "-vf"
    ensures OptionValue(Splice(BaseVideoArgs(mediaUrl), 3, ["-vf", "scale=1280x720"]), "-c:v") == Some("-vf")
    ensures OptionValue(Splice(BaseVideoArgs(mediaUrl), 4, ["-vf", "scale=1280x720"]), "-c:v") == Some("libx264")
    ensures OptionValue(Splice(BaseVideoArgs(mediaUrl), 4, ["-vf", "scale=1280x720"]), "-vf") == Some("scale=1280x720")
  {
    SplicedAtThree(mediaUrl);
    SplicedAtFour(mediaUrl);
  }

  /** The command line as written: the frame-size option lands between
      `-c:v` and its codec. */
  lemma SplicedAtThree(mediaUrl: string)
    requires mediaUrl != "-c:v"
    ensures OptionValue(Splice(BaseVideoArgs(mediaUrl), 3, ["-vf", "scale=1280x720"]), "-c:v") == Some("-vf")
  {
    var args := Splice(BaseVideoArgs(mediaUrl), 3, ["-vf", "scale=1280x720"]);
    assert args[..3] == ["-i", mediaUrl, "-c:v"] && args[3] == "-vf" && |args| == 19;
    IndexOfAt(args, "-c:v", 2) by {
      assert args[..2] == ["-i", mediaUrl];
    }
  }

  /** The corrected command line: both options keep their values. */
  lemma SplicedAtFour(mediaUrl: string)
    requires mediaUrl != "-c:v" && mediaUrl != "-vf"
    ensures OptionValue(Splice(BaseVideoArgs(mediaUrl), 4, ["-vf", "scale=1280x720"]), "-c:v") == Some("libx264")
    ensures OptionValue(Splice(BaseVideoArgs(mediaUrl), 4, ["-vf", "scale=1280x720"]), "-vf") == Some("scale=1280x720")
  {
    var args := Splice(BaseVideoArgs(mediaUrl), 4, ["-vf", "scale=1280x720"]);
    assert args[..4] == ["-i", mediaUrl, "-c:v", "libx264"] && args[4] == "-vf" && args[5] == "scale=1280x720" && |args| == 19;
    IndexOfAt(args, "-c:v", 2) by {
      assert args[..2] == ["-i", mediaUrl];
    }
    IndexOfAt(args, "-vf", 4);
  }

  /** `sanitizeFilename`: ASCII letters, digits, `-` and `_` only. */
  function SanitizeFilename(name: string): (r: string)
    ensures |r| <= 100
    ensures forall k :: 0 <= k < |r| ==> IsAsciiNameChar(r[k])
  {
    Sanitize(name, IsAsciiNameChar)
  }

  /** Sanitizing twice is sanitizing once. */
  lemma SanitizeFilenameIdempotent(name: string)
    ensures SanitizeFilename(SanitizeFilename(name)) == SanitizeFilename(name)
  {
    SanitizeIdempotent(name, IsAsciiNameChar);
  }

  /** A character outside the name class that is not white space (an
      accented letter, punctuation, an emoji) is dropped without a trace. */
  lemma SanitizeFilenameDrops(a: string, c: char, b: string)
    requires !IsAsciiNameChar(c) && !IsWhitespace(c)
    ensures SanitizeFilename(a + [c] + b) == SanitizeFilename(a + b)
  {
    SanitizeDrops(a, c, b, IsAsciiNameChar);
  }

  /** The file extension by media kind. */
  function Extension(kind: MediaKind): string
  {
    if kind == Audio then "mp3" else "mp4"
  }

  /** The headers of the streamed answer. */
  function StreamHeaders(kind: MediaKind, name: string): (h: map<string, string>)
    ensures h.Keys == {"Content-Type", "Content-Disposition", "Cache-Control"}
    ensures h["Content-Type"] == (if kind == Audio then "audio/mpeg" else "video/mp4")
    ensures h["Cache-Control"] == "no-cache"
    ensures h["Content-Disposition"] == "attachment; filename=\"" + name + "." + Extension(kind) + "\""
  {
    map[
      "Content-Type" := if kind == Audio then "audio/mpeg" else "video/mp4",
      "Content-Disposition" := "attachment; filename=\"" + name + "." + Extension(kind) + "\"",
      "Cache-Control" := "no-cache"]
  }

  /** A sanitized name never closes the quoted `filename` parameter early:
      the only quotes of the disposition header are its own two. */
  lemma DispositionQuotesOnlyName(kind: MediaKind, title: string)
    ensures var d := StreamHeaders(kind, SanitizeFilename(title))["Content-Disposition"];
      forall k :: 0 <= k < |d| && d[k] == '"' ==> k == 21 || k == |d| - 1
  {
    var name := SanitizeFilename(title);
    assert forall k :: 0 <= k < |name| ==> name[k] != '"' by {
      forall k | 0 <= k < |name| ensures name[k] != '"' {
        assert IsAsciiNameChar(name[k]);
      }
    }
    QuotesAroundOnly(name, Extension(kind));
  }

  /** The quoted `filename` parameter around a quote-free name and a
      three-letter extension has no quotes but its own two. */
  lemma QuotesAroundOnly(name: string, ext: string)
    requires forall k :: 0 <= k < |name| ==> name[k] != '"'
    requires ext == "mp3" || ext == "mp4"
    ensures var d := "attachment; filename=\"" + name + "." + ext + "\"";
      forall k :: 0 <= k < |d| && d[k] == '"' ==> k == 21 || k == |d| - 1
  {
    var prefix := "attachment; filename=\"";
    var tail := "." + ext + "\"";
    var d := "attachment; filename=\"" + name + "." + ext + "\"";
    assert d == prefix + name + tail;
    assert |prefix| == 22 && |tail| == 5;
    forall k | 0 <= k < |d| && k != 21 && k != |d| - 1
      ensures d[k] != '"'
    {
      if k < 22 {
        assert d[k] == prefix[k];
      } else if k < 22 + |name| {
        assert d[k] == name[k - 22];
      } else {
        assert d[k] == tail[k - 22 - |name|];
      }
    }
  }

  /** The query of a download request. */
  datatype Query = Query(url: Option<string>, format: Option<string>, quality: Option<string>)

  /** A JSON error answer, or the streamed transcoder output. */
  datatype Response = Json(status: int, error: string) | Stream(headers: map<string, string>)

  const MissingUrl := "Missing required parameter: url"
  const BadFormat := "Invalid format. Use \"video\" or \"audio\""
  const BadUrl := "Invalid YouTube URL"
  const NoLocator := "Failed to extract media URL from yt-dlp"

  /** The validation of `GET`, in the order the route performs it. */
  function Validate(query: Query): (r: Result<(string, MediaKind)>)
    ensures !Truthy(query.url) ==> r == Invalid(MissingUrl)
    ensures Truthy(query.url) && KindOf(query.format).None? ==> r == Invalid(BadFormat)
    ensures Truthy(query.url) && KindOf(query.format).Some? && !IsYoutubeUrl(query.url.value) ==> r == Invalid(BadUrl)
    ensures r.Valid? <==> Truthy(query.url) && KindOf(query.format).Some? && IsYoutubeUrl(query.url.value)
    ensures r.Valid? ==> r.value == (query.url.value, KindOf(query.format).value)
  {
    if !Truthy(query.url) then Invalid(MissingUrl)
    else if KindOf(query.format).None? then Invalid(BadFormat)
    else if !IsYoutubeUrl(query.url.value) then Invalid(BadUrl)
    else Valid((query.url.value, KindOf(query.format).value))
  }

  datatype Result<T> = Valid(value: T) | Invalid(message: string)

  /** The transcoder command line `streamAudio` or `streamVideo` runs on
      `locator` (with the scale filter after the codec pair). */
  predicate IsTranscoderCommand(args: seq<string>, kind: MediaKind, quality: string, locator: string)
  {
    && (kind == Audio ==> args == AudioArgs(locator, quality))
    && (kind == Video && !IsTableHeight(quality) ==> args == BaseVideoArgs(locator))
    && (kind == Video && IsTableHeight(quality) ==>
          && |args| == |BaseVideoArgs(locator)| + 2
          && args[..4] + args[6..] == BaseVideoArgs(locator)
          && args[4..6] == ["-vf", "scale=" + Resolutions[quality]])
  }

  /** The part of `GET` after a locator was resolved: the title lookup, the
      transcoder command line for the media kind, and the headers. */
  method StartStream(url: string, kind: MediaKind, quality: string, locator: string, titleRun: Exit<string>)
    returns (response: Response, spawned: seq<Invocation>)
    ensures |spawned| == 2
    ensures spawned[0] == Invocation("yt-dlp", ["--get-title", "--no-warnings", url])
    ensures spawned[1].program == "ffmpeg" && IsTranscoderCommand(spawned[1].args, kind, quality, locator)
    ensures response == Stream(StreamHeaders(kind, SanitizeFilename(GetVideoTitle(titleRun))))
  {
    spawned := [Invocation("yt-dlp", ["--get-title", "--no-warnings", url])];
    var title := GetVideoTitle(titleRun);
    var name := SanitizeFilename(OrElse(title, "download"));
    var ffmpegArgs;
    if kind == Audio {
      ffmpegArgs := AudioArgs(locator, quality);
    } else {
      ffmpegArgs := VideoArgs(locator, quality);
    }
    spawned := spawned + [Invocation("ffmpeg", ffmpegArgs)];
    response := Stream(StreamHeaders(kind, name));
  }

  /** `GET /api/download-pro` once the query is valid: the locator run, then
      the stream when it printed a locator. */
  method Serve(url: string, kind: MediaKind, quality: string, locate: Exit<string>, titleRun: Exit<string>)
    returns (response: Response, spawned: seq<Invocation>)
    ensures |spawned| >= 1
    ensures spawned[0] == Invocation("yt-dlp", ["-g", "--no-warnings", "--no-playlist", "-f", Selector(kind, quality), url])
    ensures response.Stream? <==> locate.ExitedZero() && !AllWhitespace(locate.stdout)
    ensures locate.ExitedZero() && AllWhitespace(locate.stdout) ==> response == Json(500, NoLocator) && |spawned| == 1
    ensures !locate.ExitedZero() ==> response == Json(500, ExtractMediaUrl(locate).message) && |spawned| == 1
    ensures response.Stream? ==>
      && |spawned| == 3
      && spawned[1] == Invocation("yt-dlp", ["--get-title", "--no-warnings", url])
      && spawned[2].program == "ffmpeg"
      && IsTranscoderCommand(spawned[2].args, kind, quality, FirstLine(Trim(locate.stdout)))
      && response == Stream(StreamHeaders(kind, SanitizeFilename(GetVideoTitle(titleRun))))
  {
    var args := MediaUrlArgs(url, kind, quality);
    spawned := [Invocation("yt-dlp", args)];
    var located := ExtractMediaUrl(locate);
    if located.Rejected? {
      response := Json(500, located.message);
      return;
    }
    LocatorEmptyIffBlank(locate.stdout);
    if located.value == "" {
      response := Json(500, NoLocator);
    } else {
      var locator := FirstLine(Trim(locate.stdout));
      assert located.value == locator;
      var more;
      response, more := StartStream(url, kind, quality, locator, titleRun);
      spawned := spawned + more;
      assert spawned[1] == more[0] && spawned[2] == more[1];
    }
  }

  /** `GET /api/download-pro`. `locate` is how the locator run ends and
      `titleRun` how the title lookup ends; `spawned` lists the command lines
      started, in order. */
  method Get(query: Query, locate: Exit<string>, titleRun: Exit<string>) returns (response: Response, spawned: seq<Invocation>)
    ensures Validate(query).Invalid? ==> response == Json(400, Validate(query).message) && spawned == []
    ensures Validate(query).Valid? ==>
      var (url, kind) := Validate(query).value;
      var quality := Or(query.quality, "best");
      && |spawned| >= 1
      && spawned[0] == Invocation("yt-dlp", ["-g", "--no-warnings", "--no-playlist", "-f", Selector(kind, quality), url])
      && (response.Stream? <==> locate.ExitedZero() && !AllWhitespace(locate.stdout))
      && (response.Stream? ==> |spawned| == 3)
    ensures response.Json? && response.status == 400 ==> spawned == []
  {
    var quality := Or(query.quality, "best");
    match Validate(query)
    case Invalid(message) =>
      response := Json(400, message);
      spawned := [];
    case Valid((url, kind)) =>
      response, spawned := Serve(url, kind, quality, locate, titleRun);
  }
}
