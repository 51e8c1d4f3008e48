/**
 * The `GET /api/download` route: the earlier download route, which lets the
 * extractor write the file itself (merging or converting it) into a
 * temporary path and then streams that file back.
 */
module Download {
  import opened Js
  import opened NumberText
  import opened Process
  import opened Filenames

  /** "Please enter a link" */
  const MissingUrl := "الرجاء إدخال رابط"

  /** Anything but the exact word `audio` is a video request. */
  predicate IsAudio(format: Option<string>)
  {
    format == Some("audio")
  }

  /** `format === "audio" ? "mp3" : "mp4"` */
  function Extension(format: Option<string>): (ext: string)
    ensures ext == "mp3" <==> IsAudio(format)
    ensures ext == "mp3" || ext == "mp4"
  {
    if IsAudio(format) then "mp3" else "mp4"
  }

  /** The selector the route settles on for a format and quality. */
  predicate IsSelectorFor(selector: string, format: Option<string>, quality: string)
  {
    && (IsAudio(format) ==> selector == "bestaudio")
    && (!IsAudio(format) && ParseInt(quality).None? ==> selector == "best")
    && (!IsAudio(format) && ParseInt(quality).Some? ==>
          var h := IntToString(ParseInt(quality).value);
          selector == "bestvideo[height<=" + h + "]+bestaudio/best[height<=" + h + "]")
  }

  /** The `formatSelector` variable after its branches: `bestaudio` for audio;
      for video the height `parseInt` reads from the quality, or `best` when
      it reads none. */
  method FormatSelector(format: Option<string>, quality: string) returns (selector: string)
    ensures IsAudio(format) ==> selector == "bestaudio"
    ensures !IsAudio(format) && ParseInt(quality).None? ==> selector == "best"
    ensures !IsAudio(format) && ParseInt(quality).Some? ==>
      var h := IntToString(ParseInt(quality).value);
      selector == "bestvideo[height<=" + h + "]+bestaudio/best[height<=" + h + "]"
    ensures IsSelectorFor(selector, format, quality)
  {
    selector := "best";
    if IsAudio(format) {
      selector := "bestaudio";
    } else {
      var height := ParseInt(quality);
      if height.Some? {
        var h := IntToString(height.value);
        selector := "bestvideo[height<=" + h + "]+bestaudio/best[height<=" + h + "]";
      }
    }
  }

  /** A quality written as a height with a `p` suffix (`720p`) selects that
      height: `parseInt` reads the number back exactly. */
  lemma HeightLabelSelectsHeight(h: int, format: Option<string>, selector: string)
    requires !IsAudio(format)
    ensures IsSelectorFor(selector, format, IntToString(h) + "p") <==>
      selector == "bestvideo[height<=" + IntToString(h) + "]+bestaudio/best[height<=" + IntToString(h) + "]"
  {
    ParseIntOfIntToString(h);
  }

  /** The argument vector of the download run: the base vector, with the
      audio-extraction options spliced in after the selector for audio, or
      the merge container pushed at the end for video. */
  method DownloadArgs(format: Option<string>, selector: string, outputFile: string, url: string) returns (args: seq<string>)
    ensures IsAudio(format) ==>
      args == ["-f", selector, "-x", "--audio-format", "mp3", "--audio-quality", "0", "--no-warnings", "--no-playlist", "-o", outputFile, url]
    ensures !IsAudio(format) ==>
      args == ["-f", selector, "--no-warnings", "--no-playlist", "-o", outputFile, url, "--merge-output-format", "mp4"]
    ensures args[..2] == ["-f", selector]
  {
    args := ["-f", selector, "--no-warnings", "--no-playlist", "-o", outputFile, url];
    if IsAudio(format) {
      args := Splice(args, 2, ["-x", "--audio-format", "mp3", "--audio-quality", "0"]);
    } else {
      args := args + ["--merge-output-format", "mp4"];
    }
  }

  /** The download command line for a request. */
  predicate IsDownloadCommand(args: seq<string>, format: Option<string>, quality: string, outputFile: string, url: string)
  {
    && |args| >= 2 && args[0] == "-f" && IsSelectorFor(args[1], format, quality)
    && (IsAudio(format) ==>
          args == ["-f", args[1], "-x", "--audio-format", "mp3", "--audio-quality", "0", "--no-warnings", "--no-playlist", "-o", outputFile, url])
    && (!IsAudio(format) ==>
          args == ["-f", args[1], "--no-warnings", "--no-playlist", "-o", outputFile, url, "--merge-output-format", "mp4"])
  }

  /** The selector and the argument vector built for a request. */
  method DownloadCommand(format: Option<string>, quality: string, outputFile: string, url: string) returns (args: seq<string>)
    ensures IsDownloadCommand(args, format, quality, outputFile, url)
  {
    var selector := FormatSelector(format, quality);
    args := DownloadArgs(format, selector, outputFile, url);
  }

  /** The options the extractor reads from the download vector, for a
      selector, URL and output path that are not themselves option names. */
  lemma DownloadArgsRead(format: Option<string>, selector: string, outputFile: string, url: string)
    requires selector != "-o" && selector != "--audio-format" && selector != "--merge-output-format"
    requires outputFile != "--merge-output-format" && url != "--merge-output-format"
    ensures var base := ["-f", selector, "--no-warnings", "--no-playlist", "-o", outputFile, url];
      var args := if IsAudio(format) then Splice(base, 2, ["-x", "--audio-format", "mp3", "--audio-quality", "0"])
                  else base + ["--merge-output-format", "mp4"];
      && OptionValue(args, "-f") == Some(selector)
      && OptionValue(args, "-o") == Some(outputFile)
      && (IsAudio(format) ==> OptionValue(args, "--audio-format") == Some("mp3"))
      && (!IsAudio(format) ==> OptionValue(args, "--merge-output-format") == Some("mp4"))
  {
    var base := ["-f", selector, "--no-warnings", "--no-playlist", "-o", outputFile, url];
    if IsAudio(format) {
      var args := Splice(base, 2, ["-x", "--audio-format", "mp3", "--audio-quality", "0"]);
      assert args == ["-f", selector, "-x", "--audio-format", "mp3", "--audio-quality", "0", "--no-warnings", "--no-playlist", "-o", outputFile, url];
      IndexOfAt(args, "-f", 0);
      IndexOfAt(args, "-o", 9);
      IndexOfAt(args, "--audio-format", 3);
    } else {
      var args := base + ["--merge-output-format", "mp4"];
      IndexOfAt(args, "-f", 0);
      IndexOfAt(args, "-o", 4);
      IndexOfAt(args, "--merge-output-format", 7);
    }
  }

  /** How the download run settles: it succeeds only when the extractor
      exited with code 0 and the output file exists. */
  function DownloadOutcome(run: Exit<string>, fileExists: bool): (r: Settled<()>)
    ensures r.Resolved? <==> run.ExitedZero() && fileExists
    ensures run.SpawnError? ==> r == Rejected("yt-dlp not found: " + run.message)
    ensures run.Closed? && !(run.ExitedZero() && fileExists) ==> r == Rejected(OrElse(run.stderr, "Download failed"))
  {
    match run
    case SpawnError(message) => Rejected("yt-dlp not found: " + message)
    case Closed(code, _, stderr) =>
      if code == Some(0) && fileExists then Resolved(()) else Rejected(OrElse(stderr, "Download failed"))
  }

  /** `getVideoTitle`: never fails, `video` by default. */
  function GetVideoTitle(run: Exit<string>): (title: string)
    ensures title != ""
  {
    TrimmedOutputOr(run, "video")
  }

  /** The characters `sanitizeFilename` keeps besides white space. */
  predicate IsNameChar(c: char)
  {
    IsAsciiNameChar(c) || IsArabicLetter(c)
  }

  /** `sanitizeFilename`: ASCII letters, digits, `-`, `_` and the Arabic
      letters `أ` to `ي`, white space runs as `_`, at most 100 characters,
      and `video` when nothing is left. */
  function SanitizeFilename(name: string): (r: string)
    ensures r != "" && |r| <= 100
    ensures forall k :: 0 <= k < |r| ==> IsNameChar(r[k])
  {
    OrElse(Sanitize(name, IsNameChar), "video")
  }

  /** Sanitizing twice is sanitizing once. */
  lemma SanitizeFilenameIdempotent(name: string)
    ensures SanitizeFilename(SanitizeFilename(name)) == SanitizeFilename(name)
  {
    var once := Sanitize(name, IsNameChar);
    SanitizeIdempotent(name, IsNameChar);
    if once == "" {
      DefaultNameIsClean();
    }
  }

  /** A character outside the name class that is not white space is
      dropped without a trace. */
  lemma SanitizeFilenameDrops(a: string, c: char, b: string)
    requires !IsNameChar(c) && !IsWhitespace(c)
    ensures SanitizeFilename(a + [c] + b) == SanitizeFilename(a + b)
  {
    SanitizeDrops(a, c, b, IsNameChar);
  }

  lemma DefaultNameIsClean()
    ensures Sanitize("video", IsNameChar) == "video"
  {
    var v := "video";
    assert forall k :: 0 <= k < |v| ==> IsNameChar(v[k]);
    SanitizePlain(v, IsNameChar);
    CollapseIdentity(v);
  }

  /** Two Arabic words separated by white space survive sanitizing, with
      the white space as one underscore. */
  lemma ArabicWordsSurvive(w1: string, sep: string, w2: string)
    requires IsArabicWord(w1) && IsArabicWord(w2)
    requires sep != [] && AllWhitespace(sep)
    requires |w1| + 1 + |w2| <= 100 && w1 != []
    ensures SanitizeFilename(w1 + sep + w2) == w1 + "_" + w2
  {
    var t := w1 + sep + w2;
    ArabicTextIsKept(w1, sep, w2);
    SanitizePlain(t, IsNameChar);
    ArabicWordsCollapse(w1, sep, w2);
  }

  predicate IsArabicWord(w: string)
  {
    forall k :: 0 <= k < |w| ==> IsArabicLetter(w[k])
  }

  lemma ArabicTextIsKept(w1: string, sep: string, w2: string)
    requires IsArabicWord(w1) && IsArabicWord(w2) && AllWhitespace(sep)
    ensures var t := w1 + sep + w2; forall k :: 0 <= k < |t| ==> IsNameChar(t[k]) || IsWhitespace(t[k])
  {
    var t := w1 + sep + w2;
    forall k | 0 <= k < |t| ensures IsNameChar(t[k]) || IsWhitespace(t[k]) {
      if k < |w1| {
        assert t[k] == w1[k];
      } else if k < |w1| + |sep| {
        assert t[k] == sep[k - |w1|];
      } else {
        assert t[k] == w2[k - |w1| - |sep|];
      }
    }
  }

  lemma ArabicWordsCollapse(w1: string, sep: string, w2: string)
    requires IsArabicWord(w1) && IsArabicWord(w2)
    requires sep != [] && AllWhitespace(sep)
    ensures CollapseWhitespace(w1 + sep + w2) == w1 + "_" + w2
  {
    ArabicWordIsPlain(w1);
    ArabicWordIsPlain(w2);
    var rest := sep + w2;
    assert w1 + sep + w2 == w1 + rest;
    assert CollapseWhitespace(w1 + rest) == w1 + CollapseWhitespace(rest) by {
      CollapseKeepsPlainText(w1, rest);
    }
    assert CollapseWhitespace(rest) == "_" + w2 by {
      CollapseRun(sep, w2);
      CollapseIdentity(w2);
    }
    assert w1 + ("_" + w2) == w1 + "_" + w2;
  }

  lemma ArabicWordIsPlain(w: string)
    requires IsArabicWord(w)
    ensures forall k :: 0 <= k < |w| ==> !IsWhitespace(w[k])
  {
    forall k | 0 <= k < |w|
      ensures !IsWhitespace(w[k])
    {
      assert IsArabicLetter(w[k]);
    }
  }

  /** The headers of the file answer: the media type follows the requested
      format, and the download name is quoted. */
  function FileHeaders(format: Option<string>, filename: string): (h: map<string, string>)
    ensures h.Keys == {"Content-Type", "Content-Disposition"}
    ensures h["Content-Type"] == "audio/mpeg" <==> IsAudio(format)
    ensures h["Content-Type"] == "audio/mpeg" || h["Content-Type"] == "video/mp4"
    ensures h["Content-Disposition"] == "attachment; filename=\"" + filename + "\""
  {
    map[
      "Content-Type" := if IsAudio(format) then "audio/mpeg" else "video/mp4",
      "Content-Disposition" := "attachment; filename=\"" + filename + "\""]
  }

  /** The query of a download request. */
  datatype Query = Query(url: Option<string>, format: Option<string>, quality: Option<string>)

  /** A JSON error answer, an error the handler throws (it has no `catch`),
      or the downloaded file streamed back. */
  datatype Response = Json(status: int, error: string) | Thrown(message: string) | File(headers: map<string, string>, path: string)

  /** `GET /api/download`. `tempFile` is the temporary path without its
      extension, `titleRun` and `download` how the two extractor runs end,
      and `fileExists` whether the output file exists once the download run
      closed. */
  method Get(query: Query, tempFile: string, titleRun: Exit<string>, download: Exit<string>, fileExists: bool)
    returns (response: Response, spawned: seq<Invocation>)
    ensures !Truthy(query.url) ==> response == Json(400, MissingUrl) && spawned == []
    ensures Truthy(query.url) ==>
      var url := query.url.value;
      var ext := Extension(query.format);
      && |spawned| == 2
      && spawned[0] == Invocation("yt-dlp", ["--get-title", "--no-warnings", url])
      && spawned[1].program == "yt-dlp"
      && IsDownloadCommand(spawned[1].args, query.format, Or(query.quality, "720"), tempFile + "." + ext, url)
      && (response.File? <==> download.ExitedZero() && fileExists)
      && (!response.File? ==> response == Thrown(DownloadOutcome(download, fileExists).message))
      && (response.File? ==>
            && response.path == tempFile + "." + ext
            && response.headers == FileHeaders(query.format, SanitizeFilename(GetVideoTitle(titleRun)) + "." + ext))
  {
    if !Truthy(query.url) {
      response := Json(400, MissingUrl);
      spawned := [];
      return;
    }
    var url := query.url.value;
    spawned := [Invocation("yt-dlp", ["--get-title", "--no-warnings", url])];
    var title := GetVideoTitle(titleRun);
    var name := SanitizeFilename(title);
    var ext := Extension(query.format);
    var outputFile := tempFile + "." + ext;
    var filename := name + "." + ext;
    var args := DownloadCommand(query.format, Or(query.quality, "720"), outputFile, url);
    spawned := spawned + [Invocation("yt-dlp", args)];
    match DownloadOutcome(download, fileExists)
    case Rejected(message) =>
      response := Thrown(message);
    case Resolved(_) =>
      response := File(FileHeaders(query.format, filename), outputFile);
  }
}
