/**
 * The `POST /api/video-info` route: the earlier variant of the video
 * information route. It only checks that a URL is present, and its tiers
 * carry an `itag`, a size string and a container besides the format.
 */
module VideoInfo {
  import opened Js
  import opened NumberText
  import opened Process
  import opened UrlPatterns
  import opened Catalog

  /** An `itag` field: the extractor's format id (a string), its numeric
      itag, or the deduplication key. */
  datatype Ident = Text(text: string) | Number(number: int)

  /** A video quality tier as the route reports it. */
  datatype VideoTier = VideoTier(itag: Ident, quality: string, qualityLabel: string, container: string, format: string, size: string, hasAudio: bool, fps: real)

  /** An audio quality tier as the route reports it. */
  datatype AudioTier = AudioTier(itag: Ident, quality: string, format: string, bitrate: real)

  /** `f.format_id || f.itag || key` */
  function IdentOf(f: FormatRecord, key: int): (r: Ident)
    ensures Truthy(f.formatId) ==> r == Text(f.formatId.value)
    ensures !Truthy(f.formatId) && f.itag.Some? && f.itag.value != 0 ==> r == Number(f.itag.value)
    ensures !Truthy(f.formatId) && (f.itag.None? || f.itag.value == 0) ==> r == Number(key)
  {
    if Truthy(f.formatId) then Text(f.formatId.value)
    else if f.itag.Some? && f.itag.value != 0 then Number(f.itag.value)
    else Number(key)
  }

  /** `f.filesize ? String(f.filesize) : '0'` */
  function SizeOf(f: FormatRecord): (r: string)
    ensures r != "" && forall k :: 0 <= k < |r| ==> IsDecimalDigit(r[k]) || r[k] == '-'
    ensures (f.filesize.None? || f.filesize.value == 0) <==> r == "0"
    ensures f.filesize.Some? && f.filesize.value != 0 ==> r == IntToString(f.filesize.value)
  {
    if f.filesize.Some? && f.filesize.value != 0 then
      var v := f.filesize.value;
      assert v > 0 ==> IntToString(v) == NatToString(v);
      assert v < 0 ==> IntToString(v) == "-" + NatToString(-v);
      IntToString(v)
    else "0"
  }

  /** `${height}p` */
  function HeightLabel(h: int): string
  {
    IntToString(h) + "p"
  }

  /** The tier object built for a video record. */
  function VideoTierOf(f: FormatRecord): VideoTier
  {
    var name := HeightLabel(Height(f));
    VideoTier(IdentOf(f, Height(f)), name, Or(f.formatNote, name), Or(f.ext, "mp4"), Or(f.ext, "mp4"), SizeOf(f), CarriesAudio(f), Fps(f))
  }

  /** The tier object built for an audio record. */
  function AudioTierOf(f: FormatRecord): AudioTier
  {
    AudioTier(IdentOf(f, AudioKey(f)), IntToString(AudioKey(f)) + "kbps", Or(f.ext, "mp3"), Bitrate(f))
  }

  /** The comparator key `parseInt(t.quality)`; a quality that does not
      parse would compare as equal to everything, and never occurs. */
  function QualityOrder(t: VideoTier): real
  {
    match ParseInt(t.quality)
    case Some(v) => v as real
    case None => 0.0
  }

  function BitrateOrder(t: AudioTier): real
  {
    t.bitrate
  }

  /** Sorting by the parsed quality label is sorting by height. */
  lemma QualityOrderIsHeight(f: FormatRecord)
    ensures QualityOrder(VideoTierOf(f)) == Height(f) as real
  {
    ParseIntOfIntToString(Height(f));
  }

  /** `parseVideoFormats`: the video records, one tier per height (the first
      record of that height, unless later records carry audio, in which case
      the last of those), sorted by height, highest first. */
  method ParseVideoFormats(formats: seq<FormatRecord>) returns (tiers: seq<VideoTier>)
    ensures multiset(tiers) == multiset(Deduplicated(Filter(formats, IsVideoFormat), Height, CarriesAudio, VideoTierOf))
    ensures |tiers| <= |formats|
    ensures StrictlyDesc(tiers, QualityOrder)
    ensures forall t :: t in tiers ==> exists f :: f in formats && IsVideoFormat(f) && t == VideoTierOf(f)
    ensures forall f :: f in formats && IsVideoFormat(f) ==>
      exists t :: t in tiers && t.quality == HeightLabel(Height(f)) && (CarriesAudio(f) ==> t.hasAudio)
  {
    var candidates := Filter(formats, IsVideoFormat);
    var unique := Deduplicate(candidates, Height, CarriesAudio, VideoTierOf);
    tiers := SortDesc(unique, QualityOrder);
    DeduplicatedLength(candidates, Height, CarriesAudio, VideoTierOf);
    forall f, g | f in candidates && g in candidates && Height(f) != Height(g)
      ensures QualityOrder(VideoTierOf(f)) != QualityOrder(VideoTierOf(g))
    {
      QualityOrderIsHeight(f);
      QualityOrderIsHeight(g);
    }
    DeduplicatedSortsStrictly(candidates, Height, CarriesAudio, VideoTierOf, QualityOrder);
    VideoTiersFrom(formats, tiers);
    VideoTiersCover(formats, tiers);
  }

  /** Every video tier is built from a video record. */
  lemma VideoTiersFrom(formats: seq<FormatRecord>, tiers: seq<VideoTier>)
    requires multiset(tiers) == multiset(Deduplicated(Filter(formats, IsVideoFormat), Height, CarriesAudio, VideoTierOf))
    ensures forall t :: t in tiers ==> exists f :: f in formats && IsVideoFormat(f) && t == VideoTierOf(f)
  {
    var candidates := Filter(formats, IsVideoFormat);
    forall t | t in tiers
      ensures exists f :: f in formats && IsVideoFormat(f) && t == VideoTierOf(f)
    {
      assert t in multiset(tiers);
      DeduplicatedFrom(candidates, Height, CarriesAudio, VideoTierOf, t);
    }
  }

  /** Every height of a video record has a tier, and that tier has audio
      whenever some record of that height does. */
  lemma VideoTiersCover(formats: seq<FormatRecord>, tiers: seq<VideoTier>)
    requires multiset(tiers) == multiset(Deduplicated(Filter(formats, IsVideoFormat), Height, CarriesAudio, VideoTierOf))
    ensures forall f :: f in formats && IsVideoFormat(f) ==>
      exists t :: t in tiers && t.quality == HeightLabel(Height(f)) && (CarriesAudio(f) ==> t.hasAudio)
  {
    var candidates := Filter(formats, IsVideoFormat);
    forall f | f in formats && IsVideoFormat(f)
      ensures exists t :: t in tiers && t.quality == HeightLabel(Height(f)) && (CarriesAudio(f) ==> t.hasAudio)
    {
      DeduplicatedCovers(candidates, Height, CarriesAudio, VideoTierOf, f);
      var kept := KeptRecord(candidates, Height, CarriesAudio, Height(f));
      if CarriesAudio(f) {
        KeptPrefers(candidates, Height, CarriesAudio, Height(f), IndexOf(candidates, f));
      }
      var t := VideoTierOf(kept);
      assert t in multiset(tiers);
    }
  }

  /** `parseAudioFormats`: the audio-only records, one tier per 32 kbps
      bucket (the first record in that bucket), sorted by bitrate, highest
      first; the buckets come out strictly descending too. */
  method ParseAudioFormats(formats: seq<FormatRecord>) returns (tiers: seq<AudioTier>)
    ensures multiset(tiers) == multiset(Deduplicated(Filter(formats, IsAudioFormat), AudioKey, NeverPreferred, AudioTierOf))
    ensures |tiers| <= |formats|
    ensures StrictlyDesc(tiers, BitrateOrder)
    ensures forall i, j :: 0 <= i < j < |tiers| ==> Bucket(tiers[i].bitrate) > Bucket(tiers[j].bitrate)
    ensures forall t :: t in tiers ==> t.quality == IntToString(Bucket(t.bitrate)) + "kbps"
    ensures forall t :: t in tiers ==> exists f :: f in formats && IsAudioFormat(f) && t == AudioTierOf(f)
    ensures forall f :: f in formats && IsAudioFormat(f) ==> exists t :: t in tiers && Bucket(t.bitrate) == AudioKey(f)
  {
    var candidates := Filter(formats, IsAudioFormat);
    var unique := Deduplicate(candidates, AudioKey, NeverPreferred, AudioTierOf);
    tiers := SortDesc(unique, BitrateOrder);
    DeduplicatedLength(candidates, AudioKey, NeverPreferred, AudioTierOf);
    DeduplicatedSortsStrictly(candidates, AudioKey, NeverPreferred, AudioTierOf, BitrateOrder);
    AudioTiersFrom(formats, tiers);
    AudioBucketsDescend(formats, tiers);
    AudioTiersCover(formats, tiers);
  }

  /** Every audio tier is labelled with its bucket and built from an audio
      record. */
  lemma AudioTiersFrom(formats: seq<FormatRecord>, tiers: seq<AudioTier>)
    requires multiset(tiers) == multiset(Deduplicated(Filter(formats, IsAudioFormat), AudioKey, NeverPreferred, AudioTierOf))
    ensures forall t :: t in tiers ==> t.quality == IntToString(Bucket(t.bitrate)) + "kbps"
    ensures forall t :: t in tiers ==> exists f :: f in formats && IsAudioFormat(f) && t == AudioTierOf(f)
  {
    var candidates := Filter(formats, IsAudioFormat);
    forall t | t in tiers
      ensures t.quality == IntToString(Bucket(t.bitrate)) + "kbps"
      ensures exists f :: f in formats && IsAudioFormat(f) && t == AudioTierOf(f)
    {
      assert t in multiset(tiers);
      DeduplicatedFrom(candidates, AudioKey, NeverPreferred, AudioTierOf, t);
    }
  }

  /** Two audio tiers of one bucket are the same tier: each is the one kept
      for that bucket. */
  lemma AudioBucketsIdentify(formats: seq<FormatRecord>, tiers: seq<AudioTier>, t: AudioTier, u: AudioTier)
    requires multiset(tiers) == multiset(Deduplicated(Filter(formats, IsAudioFormat), AudioKey, NeverPreferred, AudioTierOf))
    requires t in tiers && u in tiers && Bucket(t.bitrate) == Bucket(u.bitrate)
    ensures t == u
  {
    var candidates := Filter(formats, IsAudioFormat);
    assert t in multiset(tiers) && u in multiset(tiers);
    DeduplicatedFrom(candidates, AudioKey, NeverPreferred, AudioTierOf, t);
    DeduplicatedFrom(candidates, AudioKey, NeverPreferred, AudioTierOf, u);
  }

  /** Tiers sorted strictly by bitrate have strictly descending buckets. */
  lemma AudioBucketsDescend(formats: seq<FormatRecord>, tiers: seq<AudioTier>)
    requires multiset(tiers) == multiset(Deduplicated(Filter(formats, IsAudioFormat), AudioKey, NeverPreferred, AudioTierOf))
    requires StrictlyDesc(tiers, BitrateOrder)
    ensures forall i, j :: 0 <= i < j < |tiers| ==> Bucket(tiers[i].bitrate) > Bucket(tiers[j].bitrate)
  {
    forall i, j | 0 <= i < j < |tiers|
      ensures Bucket(tiers[i].bitrate) > Bucket(tiers[j].bitrate)
    {
      assert BitrateOrder(tiers[i]) > BitrateOrder(tiers[j]);
      BucketMonotone(tiers[j].bitrate, tiers[i].bitrate);
      if Bucket(tiers[i].bitrate) == Bucket(tiers[j].bitrate) {
        AudioBucketsIdentify(formats, tiers, tiers[i], tiers[j]);
      }
    }
  }

  /** Every bucket of an audio record has a tier. */
  lemma AudioTiersCover(formats: seq<FormatRecord>, tiers: seq<AudioTier>)
    requires multiset(tiers) == multiset(Deduplicated(Filter(formats, IsAudioFormat), AudioKey, NeverPreferred, AudioTierOf))
    ensures forall f :: f in formats && IsAudioFormat(f) ==> exists t :: t in tiers && Bucket(t.bitrate) == AudioKey(f)
  {
    var candidates := Filter(formats, IsAudioFormat);
    forall f | f in formats && IsAudioFormat(f)
      ensures exists t :: t in tiers && Bucket(t.bitrate) == AudioKey(f)
    {
      DeduplicatedCovers(candidates, AudioKey, NeverPreferred, AudioTierOf, f);
      var t := AudioTierOf(KeptRecord(candidates, AudioKey, NeverPreferred, AudioKey(f)));
      assert t in multiset(tiers);
    }
  }

  // ---------------------------------------------------------------------------
  // The extractor run and the route

  /** What the route answers for a video. */
  datatype VideoInfo = VideoInfo(description: Description, videoFormats: seq<VideoTier>, audioFormats: seq<AudioTier>)

  /** The request body: JSON that could not be read, or an object whose
      `url` field is `None` when missing. */
  datatype Request = Unreadable(reason: string) | Body(url: Option<string>)

  /** The JSON answer: its status, `success` and `error` fields, and the
      video information on success. */
  datatype Response = Response(status: int, success: Option<bool>, error: Option<string>, info: Option<VideoInfo>)

  const ParseFailure := "Failed to parse yt-dlp output"

  const NotInstalled := "yt-dlp not found. Please install: winget install yt-dlp"

  /** "Please enter a link" */
  const MissingUrl := "الرجاء إدخال رابط"

  /** The command line of the metadata dump. */
  function DumpInvocation(url: string): Invocation
  {
    Invocation("yt-dlp", ["-j", "--no-warnings", "--no-playlist", "--skip-download", url])
  }

  /** The message of a run that closed with a non-zero code (or a signal). */
  function ExitFailure(stderr: string): string
  {
    "yt-dlp error: " + OrElse(stderr, "Unknown error")
  }

  /** A dump that cannot be parsed is reported differently from a failing
      run, whatever the run wrote to stderr. */
  lemma ParseFailureIsNotExitFailure(stderr: string)
    ensures ParseFailure != ExitFailure(stderr)
  {
    assert ParseFailure[0] != ExitFailure(stderr)[0];
  }

  /** The answer for a parsed dump `m` of `url`: the description with its
      defaults, the video tiers as the deduplicated video records sorted by
      height, and the audio tiers as the first record per bucket sorted by
      bitrate, both highest first. */
  ghost predicate DescribesDump(url: string, m: Metadata, info: VideoInfo)
  {
    && info.description == Describe(m, ExtractVideoId(url).GetOr(""))
    && multiset(info.videoFormats) == multiset(Deduplicated(Filter(FormatsOf(m), IsVideoFormat), Height, CarriesAudio, VideoTierOf))
    && StrictlyDesc(info.videoFormats, QualityOrder)
    && multiset(info.audioFormats) == multiset(Deduplicated(Filter(FormatsOf(m), IsAudioFormat), AudioKey, NeverPreferred, AudioTierOf))
    && StrictlyDesc(info.audioFormats, BitrateOrder)
  }

  /** `getVideoInfoYtdlp` once the extractor has run: `outcome.stdout` is
      the parsed dump, `None` when `JSON.parse` (or reading the parsed value)
      threw. */
  method GetVideoInfo(url: string, outcome: Exit<Option<Metadata>>) returns (r: Settled<VideoInfo>)
    ensures outcome.SpawnError? ==> r == Rejected(NotInstalled)
    ensures outcome.Closed? && !outcome.ExitedZero() ==> r == Rejected(ExitFailure(outcome.stderr))
    ensures outcome.ExitedZero() && outcome.stdout.None? ==> r == Rejected(ParseFailure)
    ensures outcome.ExitedZero() && outcome.stdout.Some? ==>
      r.Resolved? && DescribesDump(url, outcome.stdout.value, r.value)
  {
    match outcome
    case SpawnError(_) =>
      r := Rejected(NotInstalled);
    case Closed(code, parsed, stderr) =>
      if code == Some(0) {
        match parsed
        case None =>
          r := Rejected(ParseFailure);
        case Some(m) =>
          var description := Describe(m, ExtractVideoId(url).GetOr(""));
          var videoFormats := ParseVideoFormats(FormatsOf(m));
          var audioFormats := ParseAudioFormats(FormatsOf(m));
          r := Resolved(VideoInfo(description, videoFormats, audioFormats));
      } else {
        r := Rejected(ExitFailure(stderr));
      }
  }

  /** `POST /api/video-info`: only the presence of a URL is checked before
      the extractor runs; a failing run answers 500 with the run's message.
      `outcome` is how the extractor run ends when it is started. */
  method Post(request: Request, outcome: Exit<Option<Metadata>>) returns (response: Response, spawned: Option<Invocation>)
    ensures request.Unreadable? ==> response == Response(500, Some(false), Some(request.reason), None) && spawned.None?
    ensures request.Body? && !Truthy(request.url) ==> response == Response(400, None, Some(MissingUrl), None) && spawned.None?
    ensures request.Body? && Truthy(request.url) ==>
      && spawned == Some(DumpInvocation(request.url.value))
      && (outcome.SpawnError? ==> response == Response(500, Some(false), Some(NotInstalled), None))
      && (outcome.Closed? && !outcome.ExitedZero() ==> response == Response(500, Some(false), Some(ExitFailure(outcome.stderr)), None))
      && (outcome.ExitedZero() && outcome.stdout.None? ==> response == Response(500, Some(false), Some(ParseFailure), None))
      && (outcome.ExitedZero() && outcome.stdout.Some? ==>
            && response.status == 200 && response.success == Some(true) && response.error.None? && response.info.Some?
            && DescribesDump(request.url.value, outcome.stdout.value, response.info.value))
    ensures response.status == 400 <==> request.Body? && !Truthy(request.url)
  {
    match request
    case Unreadable(reason) =>
      response := Response(500, Some(false), Some(reason), None);
      spawned := None;
    case Body(url) =>
      if !Truthy(url) {
        response := Response(400, None, Some(MissingUrl), None);
        spawned := None;
      } else {
        spawned := Some(DumpInvocation(url.value));
        var settled := GetVideoInfo(url.value, outcome);
        match settled
        case Resolved(info) =>
          response := Response(200, Some(true), None, Some(info));
        case Rejected(message) =>
          response := Response(500, Some(false), Some(message), None);
      }
  }
}
