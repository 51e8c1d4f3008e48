# YouTube downloader routes — a Dafny model

This project models the deterministic core of a small Next.js YouTube
downloader. Its four API routes and one helper library all hand the real work
to external tools: the `yt-dlp` extractor, the `ffmpeg` transcoder and the
`ytdl-core` library. Around those calls the routes make every decision
themselves:

- they validate requests;
- they pull a video id out of a link;
- they build the extractor's and the transcoder's command lines from lookup
  tables;
- they turn the extractor's format list into deduplicated, sorted quality
  tiers;
- they fill in metadata defaults;
- they clean titles into download file names;
- they classify what a finished child process means for the answer.

The model states these decisions in Dafny and proves what the routes promise
about them.

Every child process is an input to the model rather than something it runs.
An `Exit` value (module `Process`) is either a spawn error or a close with an
exit code, an output and an error text. `JSON.parse` becomes an optional
`Metadata` record. The library's `getInfo` and `chooseFormat` become a settled
value and a function parameter. Whether the downloaded file exists is a
boolean.

Modules:

- **`Js`:** the JavaScript behaviour the routes lean on. This covers:
  - truthiness and `||` defaults, and object-literal lookups;
  - the ECMAScript white-space set, `trim()` and `split('\n')[0]`;
  - `String(n)` and `parseInt`, with `NaN` as `None`;
  - `replace` of a one-character pattern, `splice`;
  - a stable descending sort.
- **`NumberText`:** `parseInt` reads back what `String(n)` writes.
- **`Process`:** process outcomes, command lines, and how a command-line tool
  reads an option's value.
- **`UrlPatterns`:** the host pattern that guards three routes, and
  `extractVideoId`'s two regular expressions.
- **`Catalog`:** format records, the filters and keys, the `Map`-building
  deduplication loop, and the metadata defaults.
- **`Filenames`:** the three steps of `sanitizeFilename`: drop characters,
  collapse white-space runs to `_`, cut to 100.
- **`VideoInfoPro`, `VideoInfo`, `DownloadPro`, `Download`, `YtdlHelper`:**
  one module per core file.

Where the code builds a value step by step (the `forEach` loops over a `Map`,
the argument vectors edited with `push` and `splice`, the reassigned
`formatSelector`), the model is a method. Each such method is proved against a
function or predicate that specifies its result. Everything else is a
function.

The audio catalog keeps the *first* record per 32 kbps bucket (the
`!uniqueFormats.has(key)` guard), unlike the video tiers, where a later record
that carries audio replaces an earlier one of the same height.

## Model

| member | source | states |
|---|---|---|
| Js.Lookup | app/api/download-pro/route.ts:106 | a table lookup yields a value exactly when the key is in the table, and then the table's value |
| Js.TrimStart | app/api/download-pro/route.ts:125 | the result is a suffix of the input, everything dropped is white space, and the result does not start with white space |
| Js.TrimEnd | app/api/download-pro/route.ts:125 | the result is a prefix of the input, everything dropped is white space, and the result does not end with white space |
| Js.Trim | app/api/download-pro/route.ts:125 | `trim()` as the end-trim of the start-trim; its properties are the four `Trim` lemmas below |
| Js.TrimEmptyIffAllWhitespace | app/api/download-pro/route.ts:125-126 | `trim()` gives the empty string if and only if the input is all white space |
| Js.TrimIsSlice | app/api/download-pro/route.ts:125 | the trimmed text is the contiguous slice of the input that starts after the leading white space |
| Js.TrimDropsOnlyWhitespace | app/api/download-pro/route.ts:125 | only white space lies before and after that slice |
| Js.TrimHasNoOuterWhitespace | app/api/download-pro/route.ts:125 | a non-empty trimmed text neither starts nor ends with white space |
| Js.TrimStartNoop | app/api/download/route.ts:32 | `parseInt` skips no characters of text that does not start with white space |
| Js.NatToString | app/api/video-info-pro/route.ts:139 | `String(n)` of a natural number is a non-empty run of decimal digits with no leading zero |
| Js.IntToString | app/api/video-info-pro/route.ts:139 | `String(i)`: a minus sign before the digits of `-i` for negative `i`, else the digits of `i`; `NumberText` proves that `parseInt` reads it back |
| Js.DigitRun | app/api/download/route.ts:32 | `parseInt` reads the longest prefix of digits valid in the radix, and the next character is not such a digit |
| Js.ParseInt | app/api/download/route.ts:32 | `parseInt` without a radix: leading white space skipped, one optional sign, a `0x` prefix for base 16, then the digit run; no digit gives `NaN` (`None`); the `NumberText` lemmas state its value on height labels |
| Js.FirstLine | app/api/download-pro/route.ts:125-126 | `split('\n')[0]` is the prefix before the first line feed and contains none |
| Js.IndexOf | lib/ytdl-helper.ts:120 | the first position of a character: it does not occur earlier, and it is at that position unless absent |
| Js.IndexOfAt | lib/ytdl-helper.ts:120 | a position holding the character, with no earlier occurrence, is the first position |
| Js.RemoveFirst | lib/ytdl-helper.ts:120 | `replace` with a one-character pattern: unchanged when the character is absent; otherwise exactly one occurrence fewer, with everything before the first occurrence kept and everything after it following in order |
| Js.Splice | app/api/download-pro/route.ts:251 | `splice(start, 0, ...items)` places the items at `start` and keeps the rest of the array around them, or appends them past the end |
| Js.Insert | app/api/video-info-pro/route.ts:149-150 | inserting keeps every element and adds exactly one |
| Js.InsertFrom | app/api/video-info-pro/route.ts:149-150 | insertion adds nothing but the inserted element |
| Js.InsertSorted | app/api/video-info-pro/route.ts:149-150 | insertion into a descending list keeps it descending, strictly when the keys are distinct |
| Js.ConsSorted | app/api/video-info-pro/route.ts:149-150 | a head whose key exceeds all others keeps a list descending |
| Js.SortDesc | app/api/video-info-pro/route.ts:149-150 | the comparator sort returns a permutation of its input |
| Js.SortDescSorted | app/api/video-info-pro/route.ts:176-177 | the sort's result is descending by key, and strictly so when keys are distinct |
| NumberText.DigitsValueOfNatToString | app/api/video-info-pro/route.ts:139 | the digits `String(n)` writes have the value `n` |
| NumberText.DigitRunStopsAt | app/api/video-info/route.ts:138 | the digit run of digits followed by a non-digit is exactly those digits |
| NumberText.ReadBackMagnitude | app/api/video-info/route.ts:138 | `parseInt`'s magnitude reading of `String(n)` followed by a non-digit is `n` |
| NumberText.ReadBackLabel | app/api/video-info-pro/route.ts:139 | the magnitude of `${n}p` reads back as `n` |
| NumberText.NegativeLabel | app/api/video-info-pro/route.ts:139 | `${n}p` of a negative `n` is a minus sign, the digits of `-n`, then `p` |
| NumberText.ParseIntOfMinus | app/api/video-info-pro/route.ts:150 | a minus sign before a magnitude `m` reads as `-m` |
| NumberText.NegativeRoundTrip | app/api/video-info-pro/route.ts:150 | `parseInt` reads back a negative height label exactly |
| NumberText.ParseIntOfNegative | app/api/video-info-pro/route.ts:139-150 | `parseInt(\`${n}p\`)` is `n` for every negative `n` |
| NumberText.ParseIntOfNonNegative | app/api/video-info-pro/route.ts:139-150 | `parseInt(\`${n}p\`)` is `n` for every `n >= 0` |
| NumberText.ParseIntOfIntToString | app/api/video-info-pro/route.ts:139-150 | the sort comparator's `parseInt(quality)` reads back the height the tier was labelled with, for every integer |
| Process.OptionValue | app/api/download-pro/route.ts:88-109 | the value read for a flag is the argument after the flag's first occurrence; none exactly when the flag is absent or occurs only as the last argument |
| Process.TrimmedOutputOr | app/api/download-pro/route.ts:141-158 | a best-effort lookup yields the trimmed output when non-empty, otherwise the fallback, and is never empty with a non-empty fallback |
| UrlPatterns.IsYoutubeUrlIff | app/api/video-info-pro/route.ts:29-30 | the step-by-step host check accepts exactly the strings the anchored pattern matches: optional scheme, optional `www.`, one of the two hosts, `/`, and a non-line-terminator |
| UrlPatterns.IsYoutubeUrl | app/api/video-info-pro/route.ts:29-30 | the host check decided left to right; `IsYoutubeUrlIff` states that it accepts exactly what the anchored pattern matches |
| UrlPatterns.GreedyMatchIsMatch | app/api/video-info-pro/route.ts:29-30 | a string the check accepts has a match of the pattern's groups |
| UrlPatterns.MatchIsGreedyMatch | app/api/video-info-pro/route.ts:29-30 | any split of a string into the pattern's groups is accepted by the check |
| UrlPatterns.StripSchemeAt | app/api/video-info-pro/route.ts:29 | the optional scheme group ends where the host begins |
| UrlPatterns.StripWwwAt | app/api/video-info-pro/route.ts:29 | the optional `www.` group ends where the host begins |
| UrlPatterns.AfterHostAt | app/api/video-info-pro/route.ts:29 | after a host and its slash, the rest of the text is what remains |
| UrlPatterns.IdRun | app/api/video-info-pro/route.ts:185 | the capture `[^&\n?#]+` is the longest prefix free of those four characters |
| UrlPatterns.IdRunStopsAt | lib/ytdl-helper.ts:13 | the capture stops exactly at the first excluded character |
| UrlPatterns.FirstAlternative | lib/ytdl-helper.ts:13 | at one position, the alternation picks the first of `watch?v=`, `youtu.be/`, `embed/` that is followed by a capture, and no earlier one matches there |
| UrlPatterns.MatchesAt | lib/ytdl-helper.ts:17-21 | there is one attempted match per position of the input, including its end |
| UrlPatterns.LeftmostNone | lib/ytdl-helper.ts:17-21 | the search finds nothing if and only if no position matches |
| UrlPatterns.LeftmostIndex | lib/ytdl-helper.ts:17-21 | a found match is the one at the leftmost matching position |
| UrlPatterns.ExtractVideoId | lib/ytdl-helper.ts:11-25 | `null` exactly when neither the link pattern matches anywhere nor the whole input is an 11-character id; a bare id with no link match comes back unchanged; otherwise a non-empty run of id characters that occurs in the input |
| UrlPatterns.ExtractVideoIdIsLeftmostCapture | lib/ytdl-helper.ts:13-21 | when the link pattern matches, the id is the longest capture run after the first alternative that matches at the leftmost matching position |
| UrlPatterns.ExtractVideoIdWithoutMatch | lib/ytdl-helper.ts:14-24 | when no alternative matches anywhere, the result is the input if it is an 11-character id, else nothing |
| UrlPatterns.MatchIsSlice | lib/ytdl-helper.ts:13-21 | the first pattern's capture is non-empty, free of `& \n ? #`, and a slice of the input |
| UrlPatterns.BareIdReturnedUnchanged | lib/ytdl-helper.ts:14-21 | an input of exactly 11 characters from `[A-Za-z0-9_-]` is returned unchanged |
| Catalog.IsVideoFormat | app/api/video-info-pro/route.ts:129-131 | the video filter: a codec other than `none` and a non-zero height |
| Catalog.IsAudioFormat | app/api/video-info-pro/route.ts:157-159 | the audio filter: an audio codec other than `none` and no video codec (missing, empty or `none`) |
| Catalog.Bucket | app/api/video-info-pro/route.ts:164 | `Math.round(b / 32) * 32` is a multiple of 32 within 16 of `b`, with halves rounded up |
| Catalog.BucketMonotone | app/api/video-info-pro/route.ts:164 | a larger bitrate never lands in a smaller bucket |
| Catalog.BucketOfKey | app/api/video-info-pro/route.ts:164 | re-bucketing a bucket key gives the same key |
| Catalog.Filter | app/api/video-info-pro/route.ts:129-131 | a record is in the result exactly when it is in the input and passes the test, and there are no more records than before; order and repetitions are stated by `FilterAppend` and `FilterOne` |
| Catalog.FilterAppend | app/api/video-info-pro/route.ts:129-131 | filtering a concatenation filters each part and concatenates the results, so the kept records keep their order and repetitions |
| Catalog.FilterOne | app/api/video-info-pro/route.ts:129-131 | one record is kept exactly when it passes the test |
| Catalog.KeysInOrderExact | app/api/video-info-pro/route.ts:134-149 | the map's keys, in insertion order, are pairwise distinct and are exactly the keys of the records |
| Catalog.Kept | app/api/video-info-pro/route.ts:134-147 | the map entry for a key after the loop has seen a prefix of the records: set on the first record of the key and replaced by each later preferred one |
| Catalog.KeptIsSome | app/api/video-info-pro/route.ts:134-147 | the map holds an entry for a key exactly when some record has that key, and the entry comes from such a record |
| Catalog.KeptLastPreferred | app/api/video-info-pro/route.ts:136-146 | when a record of a key is preferred, the last preferred record of that key wins |
| Catalog.KeptFirst | app/api/video-info-pro/route.ts:162-173 | when no record of a key is preferred, the first record of that key stays |
| Catalog.KeptNone | app/api/video-info-pro/route.ts:134-147 | a key no record has gets no entry |
| Catalog.KeptPrefers | app/api/video-info-pro/route.ts:137-142 | if any record of a key carries audio, the kept one does |
| Catalog.LastPreferred | app/api/video-info-pro/route.ts:137 | given a preferred record of a key, there is a last one, with no preferred record of that key after it |
| Catalog.KeptRecord | app/api/video-info-pro/route.ts:134-147 | the kept record for a seen key is an input record with that key |
| Catalog.Deduplicated | app/api/video-info-pro/route.ts:134-149 | `Array.from(map.values())`: the entry for each key, in first-seen order, made from the kept record |
| Catalog.DeduplicatedLength | app/api/video-info-pro/route.ts:149 | there are no more tiers than records |
| Catalog.DeduplicatedCovers | app/api/video-info-pro/route.ts:134-149 | every record's key contributes the tier made from its kept record |
| Catalog.DeduplicatedFrom | app/api/video-info-pro/route.ts:134-149 | every tier is made from the record kept for its own key |
| Catalog.DeduplicatedSortsStrictly | app/api/video-info-pro/route.ts:149-150 | when distinct keys give distinct sort keys, the sorted tiers are strictly descending |
| Catalog.Deduplicate | app/api/video-info-pro/route.ts:134-149 | the `forEach` loop over the `Map` leaves exactly the deduplicated tiers, in insertion order |
| Catalog.Describe | app/api/video-info-pro/route.ts:96-110 | the defaults: title, else `Unknown Title`; uploader, else channel, else `Unknown`; id, else the extracted id; thumbnail, else the id's default image; duration, else 0 |
| Filenames.KeepOnly | app/api/download-pro/route.ts:291 | dropping characters leaves only kept ones, and text already made of kept characters is unchanged |
| Filenames.KeepOnlyAppend | app/api/download-pro/route.ts:291 | the global replace works character by character: the filter of a concatenation is the concatenation of the filters |
| Filenames.KeepOnlyChar | app/api/download-pro/route.ts:291 | one character survives exactly when it is in the class |
| Filenames.KeepOnlyDrops | app/api/download-pro/route.ts:291 | a character outside the class vanishes, and the text around it is filtered as if it were not there |
| Filenames.RunLength | app/api/download-pro/route.ts:292 | a white-space run is the longest white-space prefix |
| Filenames.CollapseWhitespace | app/api/download-pro/route.ts:292 | the result has no white space, is no longer than the input, and holds only `_` and characters of the input |
| Filenames.Truncate | app/api/download-pro/route.ts:293 | `substring(0, n)` is the whole text when it is short enough, and exactly its first `n` characters otherwise |
| Filenames.CollapseRun | app/api/download-pro/route.ts:292 | a white-space run becomes exactly one `_` |
| Filenames.RunOfWhitespacePrefix | app/api/download-pro/route.ts:292 | the run ends where the white space ends |
| Filenames.CollapseKeepsPlainText | app/api/download-pro/route.ts:292 | text without white space passes through collapsing unchanged, whatever follows |
| Filenames.CollapseIdentity | app/api/download-pro/route.ts:292 | collapsing text without white space is the identity |
| Filenames.Sanitize | app/api/download-pro/route.ts:290-293 | the cleaned name has at most 100 characters, all from the kept class; its value for every title follows from `SanitizeFiltered`, `SanitizePlain` and `SanitizeDrops` |
| Filenames.SanitizeIdempotent | app/api/download-pro/route.ts:290-293 | cleaning a cleaned name changes nothing |
| Filenames.SanitizePlain | app/api/download-pro/route.ts:290-293 | a name with only kept characters and white space is only collapsed and cut |
| Filenames.SanitizeFiltered | app/api/download-pro/route.ts:290-293 | every title cleans as the text of its kept characters and white space does, and that text is a plain name |
| Filenames.SanitizeDrops | app/api/download-pro/route.ts:291 | a character neither in the class nor white space leaves no trace in the cleaned name |
| VideoInfoPro.VideoTierOf | app/api/video-info-pro/route.ts:138-145 | the video tier object: `<height>p`, the format note or that label, the extension or `mp4`, the audio flag, fps or 30, size or 0 |
| VideoInfoPro.AudioTierOf | app/api/video-info-pro/route.ts:166-171 | the audio tier object: `<bucket>kbps`, the extension or `mp3`, the bitrate or 128, size or 0 |
| VideoInfoPro.QualityOrderIsHeight | app/api/video-info-pro/route.ts:139-150 | the comparator's key for a tier is its height |
| VideoInfoPro.ParseVideoFormats | app/api/video-info-pro/route.ts:128-151 | the tiers are the deduplicated video records, strictly descending by height, at most one per record, each from a video record, covering every height, with audio when any record of the height has audio |
| VideoInfoPro.VideoTiersFrom | app/api/video-info-pro/route.ts:129-146 | every video tier is built from a video record |
| VideoInfoPro.VideoTiersCover | app/api/video-info-pro/route.ts:133-146 | every video height has a tier, which has audio when some record of that height does |
| VideoInfoPro.ParseAudioFormats | app/api/video-info-pro/route.ts:156-178 | the tiers are the first audio record per bucket, strictly descending by bitrate and by bucket, labelled `<bucket>kbps`, each from an audio record, covering every bucket |
| VideoInfoPro.AudioTiersFrom | app/api/video-info-pro/route.ts:157-172 | every audio tier is labelled with its bucket and built from an audio record |
| VideoInfoPro.AudioBucketsIdentify | app/api/video-info-pro/route.ts:161-174 | two audio tiers in one bucket are the same tier |
| VideoInfoPro.AudioBucketsDescend | app/api/video-info-pro/route.ts:161-177 | tiers sorted by bitrate have strictly descending buckets |
| VideoInfoPro.AudioTiersCover | app/api/video-info-pro/route.ts:161-174 | every bucket of an audio record has a tier |
| VideoInfoPro.ParseFailureIsNotExitFailure | app/api/video-info-pro/route.ts:111-116 | the parse-failure message differs from every exit-failure message |
| VideoInfoPro.DescribesDump | app/api/video-info-pro/route.ts:96-110 | the answer for a parsed dump: the description with its defaults and both tier lists as `ParseVideoFormats` and `ParseAudioFormats` promise them |
| VideoInfoPro.GetVideoInfo | app/api/video-info-pro/route.ts:90-121 | the spawn error, non-zero exit and unparsable output each reject with their own message; a parsed dump resolves to the described metadata and both tier lists |
| VideoInfoPro.Post | app/api/video-info-pro/route.ts:16-63 | a missing url or one that fails the host pattern answers 400 and spawns nothing; otherwise the dump runs once; a spawn error, a failed run and an unparsable dump answer 500 with their own messages; a parsed dump answers 200 with the description and both tier lists of `DescribesDump` |
| VideoInfo.IdentOf | app/api/video-info/route.ts:125 | `format_id`, else a non-zero `itag`, else the key |
| VideoInfo.SizeOf | app/api/video-info/route.ts:130 | `String(filesize)` of a non-zero size, and `'0'` exactly when the size is missing or zero |
| VideoInfo.VideoTierOf | app/api/video-info/route.ts:124-133 | the video tier object, with the `itag`, `container` and `size` fields of this route |
| VideoInfo.AudioTierOf | app/api/video-info/route.ts:153-158 | the audio tier object, with the `itag` field of this route |
| VideoInfo.QualityOrderIsHeight | app/api/video-info/route.ts:126-138 | the comparator's key for a tier is its height |
| VideoInfo.ParseVideoFormats | app/api/video-info/route.ts:115-139 | as in the pro route, for tiers that also carry `itag`, `size` and `container` |
| VideoInfo.VideoTiersFrom | app/api/video-info/route.ts:116-134 | every video tier is built from a video record |
| VideoInfo.VideoTiersCover | app/api/video-info/route.ts:120-135 | every video height has a tier, which has audio when some record of that height does |
| VideoInfo.ParseAudioFormats | app/api/video-info/route.ts:144-166 | as in the pro route, for tiers that also carry `itag` |
| VideoInfo.AudioTiersFrom | app/api/video-info/route.ts:145-161 | every audio tier is labelled with its bucket and built from an audio record |
| VideoInfo.AudioBucketsIdentify | app/api/video-info/route.ts:149-162 | two audio tiers in one bucket are the same tier |
| VideoInfo.AudioBucketsDescend | app/api/video-info/route.ts:149-165 | tiers sorted by bitrate have strictly descending buckets |
| VideoInfo.AudioTiersCover | app/api/video-info/route.ts:149-162 | every bucket of an audio record has a tier |
| VideoInfo.ParseFailureIsNotExitFailure | app/api/video-info/route.ts:95-102 | the parse-failure message differs from every exit-failure message |
| VideoInfo.DescribesDump | app/api/video-info/route.ts:80-94 | the answer for a parsed dump: the description with its defaults and both tier lists |
| VideoInfo.GetVideoInfo | app/api/video-info/route.ts:74-108 | the spawn error, non-zero exit and unparsable output each reject with their own message; a parsed dump resolves to the described metadata and both tier lists |
| VideoInfo.Post | app/api/video-info/route.ts:8-48 | the answer is 400 exactly when the url is missing, and then nothing is spawned; there is no host check; otherwise the dump runs once; a spawn error answers 500 with the install hint, a failed run and an unparsable dump with their own messages; a parsed dump answers 200 with the description and both tier lists of `DescribesDump` |
| DownloadPro.KindOf | app/api/download-pro/route.ts:29-34 | only the exact words `video` and `audio` name a media kind |
| DownloadPro.Selector | app/api/download-pro/route.ts:95-107 | `bestaudio` for audio; the table's selector for the four known heights; `best` for anything else |
| DownloadPro.MediaUrlArgs | app/api/download-pro/route.ts:88-109 | the argument vector built with `push` |
| DownloadPro.SelectorIsRead | app/api/download-pro/route.ts:88-109 | the extractor reads the selector as the value of `-f`, and the link comes last |
| DownloadPro.ExtractMediaUrl | app/api/download-pro/route.ts:123-134 | resolves exactly on exit code 0, with the first line of the trimmed output: a line-feed-free prefix that ends at the end of the output or just before a line feed; rejects with the spawn or exit message otherwise |
| DownloadPro.LocatorEmptyIffBlank | app/api/download-pro/route.ts:50-52 | the locator is empty, and the handler throws, exactly when the output is all white space |
| DownloadPro.GetVideoTitle | app/api/download-pro/route.ts:141-158 | the title lookup never fails and never yields an empty title |
| DownloadPro.AudioBitrate | app/api/download-pro/route.ts:169-177 | a table bitrate is the quality with `k`; `best` and every unknown quality give `256k` |
| DownloadPro.AudioArgs | app/api/download-pro/route.ts:179-187 | the twelve-element audio command line: input, no video, 44100 Hz, two channels, the table bitrate, `-f mp3`, standard output |
| DownloadPro.AudioArgsRead | app/api/download-pro/route.ts:179-187 | the transcoder reads the input, `44100`, `2`, the table bitrate and `mp3` for their options, and writes to `pipe:1` |
| DownloadPro.BaseVideoArgs | app/api/download-pro/route.ts:238-248 | the transcoder vector before scaling: H.264 at `ultrafast` and CRF 23, AAC at 192k, fragmented MP4 to standard output |
| DownloadPro.ResolutionsCoverTableHeights | app/api/download-pro/route.ts:229-236 | a frame size is found exactly for the four known heights |
| DownloadPro.VideoArgsAsWritten | app/api/download-pro/route.ts:237-252 | the scale option lands at index 3, between `-c:v` and `libx264`; without a known height the base vector is unchanged |
| DownloadPro.VideoArgs | app/api/download-pro/route.ts:237-252 | the corrected vector: the codec pair stays together and the scale option follows it; nothing else moves |
| DownloadPro.CodecOptionExample | app/api/download-pro/route.ts:250-252 | the transcoder reads `-vf` as the codec in the vector as written, and `libx264` and the scale in the corrected vector |
| DownloadPro.SplicedAtThree | app/api/download-pro/route.ts:250-252 | after the splice at index 3, the value of `-c:v` is `-vf` |
| DownloadPro.SplicedAtFour | app/api/download-pro/route.ts:250-252 | after a splice at index 4, `-c:v` is `libx264` and `-vf` is the scale |
| DownloadPro.SanitizeFilename | app/api/download-pro/route.ts:289-294 | at most 100 characters, all ASCII letters, digits, `-` or `_` |
| DownloadPro.SanitizeFilenameIdempotent | app/api/download-pro/route.ts:289-294 | cleaning twice is cleaning once |
| DownloadPro.SanitizeFilenameDrops | app/api/download-pro/route.ts:289-294 | a character that is neither ASCII letter, digit, `-`, `_` nor white space is dropped without a trace |
| DownloadPro.StreamHeaders | app/api/download-pro/route.ts:211-217 | exactly three headers; the content type follows the kind; the disposition is an attachment named `<name>.<mp3 or mp4>` in quotes; caching is off |
| DownloadPro.DispositionQuotesOnlyName | app/api/download-pro/route.ts:277-283 | the only quote marks in the disposition header are the two around the file name |
| DownloadPro.Validate | app/api/download-pro/route.ts:22-43 | the checks come in order: missing url, then an unknown format, then the host pattern; the request is valid exactly when all three pass |
| DownloadPro.IsTranscoderCommand | app/api/download-pro/route.ts:179-252 | the audio vector for audio; for video the base vector, with the scale option after the codec pair for a known height (the corrected placement of the Findings row) |
| DownloadPro.StartStream | app/api/download-pro/route.ts:56-65 | the title lookup runs, then the transcoder with the command line for the kind (the corrected scale placement), and the answer streams with the kind's headers |
| DownloadPro.Serve | app/api/download-pro/route.ts:47-76 | the locator runs first; the answer streams exactly when it exits 0 with non-blank output; a blank output or a failure is a 500 with its message and nothing more is spawned; the stream runs the corrected transcoder vector |
| DownloadPro.Get | app/api/download-pro/route.ts:14-77 | an invalid request answers 400 with its message and spawns nothing; a valid one runs the locator with quality defaulting to `best`, and streams exactly when the locator yields a line |
| Download.Extension | app/api/download/route.ts:24 | `mp3` exactly for the format `audio`; `mp4` for anything else, missing included |
| Download.FormatSelector | app/api/download/route.ts:28-36 | `bestaudio` for audio; for video the height `parseInt` reads from the quality, or `best` when it reads none |
| Download.IsSelectorFor | app/api/download/route.ts:28-36 | the selector the branches settle on: `bestaudio`, the height `parseInt` reads, or `best` |
| Download.HeightLabelSelectsHeight | app/api/download/route.ts:32-34 | a quality such as `720p` selects exactly that height |
| Download.DownloadArgs | app/api/download/route.ts:38-52 | the audio vector with the extraction options spliced after the selector, or the video vector with the merge container pushed at the end |
| Download.IsDownloadCommand | app/api/download/route.ts:38-52 | the download vector: the selector after `-f`, the audio extraction options spliced at index 2, or the merge container pushed at the end |
| Download.DownloadCommand | app/api/download/route.ts:28-52 | the command line is the one the selector and the argument rules give |
| Download.DownloadArgsRead | app/api/download/route.ts:38-52 | the extractor reads the selector for `-f` and the output file for `-o`, and reads `mp3` or `mp4` for the format option |
| Download.DownloadOutcome | app/api/download/route.ts:65-75 | success exactly when the exit code is 0 and the file exists; otherwise the error output, `Download failed`, or the not-found message |
| Download.GetVideoTitle | app/api/download/route.ts:99-107 | the title lookup never fails and never yields an empty title |
| Download.SanitizeFilename | app/api/download/route.ts:112-118 | never empty, at most 100 characters, all ASCII letters, digits, `-`, `_` or Arabic letters |
| Download.SanitizeFilenameIdempotent | app/api/download/route.ts:112-118 | cleaning twice is cleaning once, fallback included |
| Download.SanitizeFilenameDrops | app/api/download/route.ts:112-118 | a character that is neither in the name class nor white space is dropped without a trace |
| Download.DefaultNameIsClean | app/api/download/route.ts:117 | the fallback `video` survives cleaning |
| Download.ArabicWordsSurvive | app/api/download/route.ts:115-117 | two Arabic words separated by white space come out joined by one `_` |
| Download.ArabicTextIsKept | app/api/download/route.ts:115 | Arabic letters and white space pass the character filter |
| Download.ArabicWordsCollapse | app/api/download/route.ts:116 | the white space between two Arabic words collapses to one `_` |
| Download.FileHeaders | app/api/download/route.ts:88-93 | exactly two headers; the content type is `audio/mpeg` exactly for audio, else `video/mp4`; the disposition is an attachment named by the file name in quotes |
| Download.Get | app/api/download/route.ts:11-94 | a missing url answers 400 and spawns nothing; otherwise the title lookup and then the download run, and the file is sent with its headers exactly when the run exits 0 and the file exists, else the error is thrown |
| YtdlHelper.GetVideoInfo | lib/ytdl-helper.ts:30-66 | a link without an id is refused; a library failure passes through; an empty thumbnail list fails; the summary resolves exactly when the id is found, the fetch succeeds and a thumbnail exists, and then carries the id, the last thumbnail and the library's fields |
| YtdlHelper.InvalidLinkFetchesNothing | lib/ytdl-helper.ts:34-37 | for a link without an id the answer does not depend on the library |
| YtdlHelper.QueryFor | lib/ytdl-helper.ts:112-125 | audio asks for the best audio-only format; video asks for both streams at the quality with its first `p` removed |
| YtdlHelper.QualityLabelNormalised | lib/ytdl-helper.ts:120 | `720p` becomes `720`, and a label without `p` is left alone |
| YtdlHelper.GetDirectDownloadUrl | lib/ytdl-helper.ts:91-141 | a library failure passes through; the link resolves exactly when a chosen format has a url; otherwise it fails with the no-format message |
| YtdlHelper.LabelledQueryIs720 | lib/ytdl-helper.ts:93-125 | `720p` and the default `720` make the same library query |

## Left out

- Spawning processes, the stdout and stderr callbacks, and the `close` and `error` events are not modelled. Each run is an `Exit` input.
- Bridging the transcoder's output into a `ReadableStream` is not modelled. Neither is a transcoder error during streaming.
- The temporary file is not modelled: its directory and `Date.now()` name are a parameter, and opening, streaming and deleting it are left out. Whether the file exists is an input.
- The `ytdl-core` agent, `getInfo`, `chooseFormat` and the `getDownloadStream` wrapper are left out, because they call into a library. `getInfo` is a settled input and `chooseFormat` a function parameter.
- `JSON.parse` is an optional `Metadata` record. A missing field and a field of an unexpected type are not told apart.
- Request bodies that are not JSON are one `Unreadable` case carrying the error text.
- The `details` field, which is shown only in development, and all console logging are left out.
- Numbers are mathematical. Bitrates, frame rates and durations are `real`; heights and sizes are `int`. Floating-point rounding, `NaN` and infinities in the dump are not modelled.
- Object-literal lookups are finite maps. A key such as `constructor` would be found on the prototype in JavaScript; the maps do not model that.
- DownloadPro.Get: its contract fixes the validation answers, the locator command, and whether the answer streams. It leaves the title and transcoder commands and the headers to `Serve`'s contract, which it calls.
- DownloadPro.SanitizeFilename: the contract states the alphabet and the length. Which characters survive is stated by `SanitizeFilenameDrops` and by `Filenames.SanitizeFiltered` and `Filenames.SanitizePlain`, not restated here.
- Download.SanitizeFilename: as for the pro route, which characters survive is stated by `SanitizeFilenameDrops`, `ArabicWordsSurvive` and the `Filenames` lemmas, not by this contract.
- DownloadPro.StartStream: the video command line it runs is the corrected one (`VideoArgs`, scale option at index 4). The route as written splices at index 3; that vector is `VideoArgsAsWritten`, described under Findings.
- DownloadPro.Serve: through `IsTranscoderCommand` it states the corrected transcoder vector, not the one the route as written spawns for a known height.
- DownloadPro.IsTranscoderCommand: describes the corrected video vector; the as-written one is `VideoArgsAsWritten`.
- VideoInfoPro.VideoTierOf: `hasAudio` is a boolean. In the route, `f.acodec && f.acodec !== 'none'` is `undefined` when the codec is missing (the key then vanishes from the JSON) and `''` when it is empty; both are modelled as `false`. The same holds for VideoInfo.VideoTierOf.
- A request body whose `url` is present but not a string (such as a number) is not modelled: `Request` carries an optional string. The pro route would answer 400 `Invalid YouTube URL`; the other route would start the extractor.
- YtdlHelper.GetVideoInfo: the author is the library's author field as a string. The nested `author.name` object is not modelled.

## Findings

| source | as written | input that shows it | evidently intended | confidence | as-written member | corrected member |
|---|---|---|---|---|---|---|
| app/api/download-pro/route.ts:250-252 | `ffmpegArgs.splice(3, 0, '-vf', ...)` inserts the scale option between `-c:v` and `libx264`, so the transcoder reads `-vf` as the codec name | quality `720`: the vector becomes `-i <url> -c:v -vf scale=1280x720 libx264 ...` | insert after the codec pair (index 4), keeping `-c:v libx264` together | not executed | DownloadPro.VideoArgsAsWritten | DownloadPro.VideoArgs |
