/**
 * The helper library around the `ytdl-core` package: the guard that refuses
 * a link without a video id before anything is fetched, the summary built
 * from the library's video details, and the choice of a direct download
 * link. The library's own fetching and format choice are parameters.
 */
module YtdlHelper {
  import opened Js
  import opened Process
  import opened UrlPatterns

  /** The video details the library returns, with its format list. */
  datatype LibraryInfo<F> = LibraryInfo(title: string, author: string, thumbnails: seq<string>, lengthSeconds: string, videoId: string, formats: seq<F>)

  /** What `getVideoInfo` returns. */
  datatype Summary<F> = Summary(videoId: string, title: string, author: string, thumbnail: string, duration: string, formats: seq<F>)

  /** "Invalid YouTube link" */
  const InvalidLink := "رابط YouTube غير صالح"

  /** "No suitable format was found" */
  const NoFormat := "لم يتم العثور على صيغة مناسبة"

  /** The error the runtime raises when the last thumbnail of an empty list
      is read. */
  const NoThumbnail := "Cannot read properties of undefined (reading 'url')"

  /** `getVideoInfo`: a link without a video id is refused before the
      library is asked; otherwise the library's answer (`fetched`) is
      summarised, with the last, largest thumbnail. */
  function GetVideoInfo<F>(url: string, fetched: Settled<LibraryInfo<F>>): (r: Settled<Summary<F>>)
    ensures ExtractVideoId(url).None? ==> r == Rejected(InvalidLink)
    ensures ExtractVideoId(url).Some? && fetched.Rejected? ==> r == Rejected(fetched.message)
    ensures ExtractVideoId(url).Some? && fetched.Resolved? && fetched.value.thumbnails == [] ==> r == Rejected(NoThumbnail)
    ensures r.Resolved? <==> ExtractVideoId(url).Some? && fetched.Resolved? && fetched.value.thumbnails != []
    ensures r.Resolved? ==>
      && r.value.videoId == ExtractVideoId(url).value
      && r.value.thumbnail == fetched.value.thumbnails[|fetched.value.thumbnails| - 1]
      && r.value.formats == fetched.value.formats
      && r.value.title == fetched.value.title && r.value.author == fetched.value.author
      && r.value.duration == fetched.value.lengthSeconds
  {
    var id := ExtractVideoId(url);
    if id.None? then Rejected(InvalidLink)
    else if fetched.Rejected? then Rejected(fetched.message)
    else if fetched.value.thumbnails == [] then Rejected(NoThumbnail)
    else
      var info := fetched.value;
      Resolved(Summary(id.value, info.title, info.author, info.thumbnails[|info.thumbnails| - 1], info.lengthSeconds, info.formats))
  }

  /** The id guard comes first: for a link without an id the answer does not
      depend on anything the library would return. */
  lemma InvalidLinkFetchesNothing<F>(url: string, a: Settled<LibraryInfo<F>>, b: Settled<LibraryInfo<F>>)
    requires ExtractVideoId(url).None?
    ensures GetVideoInfo(url, a) == GetVideoInfo(url, b) == Rejected(InvalidLink)
  {
  }

  /** The options passed to the library's `chooseFormat`. */
  datatype FormatQuery = FormatQuery(quality: string, filter: string)

  /** The format the library picks, with its direct link when it has one. */
  datatype ChosenFormat = ChosenFormat(url: Option<string>, itag: int)

  /** What `getDirectDownloadUrl` returns. */
  datatype DirectLink = DirectLink(url: string, format: ChosenFormat, title: string, videoId: string)

  /** The query for a request: the best audio-only format, or a format with
      both streams at the requested quality with its first `p` removed. */
  function QueryFor(quality: string, format: string): (q: FormatQuery)
    ensures format == "audio" ==> q == FormatQuery("highestaudio", "audioonly")
    ensures format != "audio" ==> q.filter == "videoandaudio" && q.quality == RemoveFirst(quality, 'p')
  {
    if format == "audio" then FormatQuery("highestaudio", "audioonly")
    else FormatQuery(RemoveFirst(quality, 'p'), "videoandaudio")
  }

  /** Removing the first `p` turns a label such as `720p` into `720`; a label
      without `p` is left alone. */
  lemma {:induction false} QualityLabelNormalised(s: string, t: string)
    requires 'p' !in s
    ensures RemoveFirst(s + "p" + t, 'p') == s + t
    ensures RemoveFirst(s, 'p') == s
  {
    var u := s + "p" + t;
    IndexOfAt(u, 'p', |s|) by {
      assert u[..|s|] == s;
    }
    assert u[|s| + 1..] == t;
  }

  /** `getDirectDownloadUrl(url, quality = '720', format = 'video')`:
      `fetched` is the library's answer for the video and `choose` stands for
      its `chooseFormat` over that video's formats. */
  function GetDirectDownloadUrl<F>(quality: Option<string>, format: Option<string>, fetched: Settled<LibraryInfo<F>>,
                                   choose: FormatQuery -> Option<ChosenFormat>): (r: Settled<DirectLink>)
    ensures fetched.Rejected? ==> r == Rejected(fetched.message)
    ensures fetched.Resolved? ==>
      var chosen := choose(QueryFor(quality.GetOr("720"), format.GetOr("video")));
      && (r.Resolved? <==> chosen.Some? && Truthy(chosen.value.url))
      && (r.Rejected? ==> r.message == NoFormat)
      && (r.Resolved? ==> r.value == DirectLink(chosen.value.url.value, chosen.value, fetched.value.title, fetched.value.videoId))
  {
    match fetched
    case Rejected(message) => Rejected(message)
    case Resolved(info) =>
      var chosen := choose(QueryFor(quality.GetOr("720"), format.GetOr("video")));
      if chosen.None? || !Truthy(chosen.value.url) then Rejected(NoFormat)
      else Resolved(DirectLink(chosen.value.url.value, chosen.value, info.title, info.videoId))
  }

  /** A `720p` label asks the library for quality `720`, as does the
      default. */
  lemma LabelledQueryIs720()
    ensures QueryFor("720p", "video") == QueryFor("720", "video") == FormatQuery("720", "videoandaudio")
  {
    QualityLabelNormalised("720", "");
    assert "720" + "p" + "" == "720p";
    assert "720" + "" == "720";
  }
}
