/**
 * The format catalog shared by the two video-information routes: the format
 * records the extractor reports, the filters that pick video and audio
 * candidates, the nearest-32 kbps bucket, and the deduplicating `forEach`
 * loop over a `Map` that keeps one record per key.
 */
module Catalog {
  import opened Js

  /** One entry of the extractor's `formats` array, restricted to the fields
      the catalog reads; a field missing from the JSON is `None`. */
  datatype FormatRecord = FormatRecord(
    formatId: Option<string>,
    itag: Option<int>,
    ext: Option<string>,
    formatNote: Option<string>,
    vcodec: Option<string>,
    acodec: Option<string>,
    height: Option<int>,
    fps: Option<real>,
    abr: Option<real>,
    filesize: Option<int>)

  /** `f.acodec && f.acodec !== 'none'` */
  predicate CarriesAudio(f: FormatRecord)
  {
    Truthy(f.acodec) && f.acodec.value != "none"
  }

  /** The video filter: `f.vcodec && f.vcodec !== 'none' && f.height`. */
  predicate IsVideoFormat(f: FormatRecord)
  {
    Truthy(f.vcodec) && f.vcodec.value != "none" && f.height.Some? && f.height.value != 0
  }

  /** The audio filter: `f.acodec && f.acodec !== 'none' && (!f.vcodec || f.vcodec === 'none')`. */
  predicate IsAudioFormat(f: FormatRecord)
  {
    CarriesAudio(f) && (!Truthy(f.vcodec) || f.vcodec.value == "none")
  }

  /** The deduplication key of a video record, `f.height`. */
  function Height(f: FormatRecord): int
  {
    f.height.GetOr(0)
  }

  /** `f.fps || 30` */
  function Fps(f: FormatRecord): real
  {
    if f.fps.Some? && f.fps.value != 0.0 then f.fps.value else 30.0
  }

  /** `f.filesize || 0` */
  function Filesize(f: FormatRecord): int
  {
    f.filesize.GetOr(0)
  }

  /** The audio loops replace nothing: the first record per key stays. */
  predicate NeverPreferred(f: FormatRecord)
  {
    false
  }

  /** `f.abr || 128` */
  function Bitrate(f: FormatRecord): real
  {
    if f.abr.Some? && f.abr.value != 0.0 then f.abr.value else 128.0
  }

  /** `Math.round(b / 32) * 32`; `Math.round` rounds halves up, that is
      `floor(x + 1/2)`. */
  function Bucket(b: real): (k: int)
    ensures k % 32 == 0
    ensures b - 16.0 < k as real <= b + 16.0
  {
    (b / 32.0 + 0.5).Floor * 32
  }

  /** The deduplication key of an audio record. */
  function AudioKey(f: FormatRecord): int
  {
    Bucket(Bitrate(f))
  }

  /** A higher bitrate never lands in a lower bucket. */
  lemma BucketMonotone(a: real, b: real)
    requires a <= b
    ensures Bucket(a) <= Bucket(b)
  {
    assert (a / 32.0 + 0.5).Floor <= (b / 32.0 + 0.5).Floor;
  }

  /** A bucket key is its own bucket: rounding a multiple of 32 again
      changes nothing. */
  lemma BucketOfKey(b: real)
    ensures Bucket(Bucket(b) as real) == Bucket(b)
  {
    var n := (b / 32.0 + 0.5).Floor;
    var x := (n * 32) as real / 32.0 + 0.5;
    assert x == n as real + 0.5;
    assert x.Floor == n;
  }

  /** `array.filter(p)` */
  function Filter(s: seq<FormatRecord>, p: FormatRecord -> bool): (r: seq<FormatRecord>)
    ensures |r| <= |s|
    ensures forall f :: f in r <==> f in s && p(f)
  {
    if s == [] then []
    else
      var rest := Filter(s[1..], p);
      assert forall f :: f in s <==> f == s[0] || f in s[1..];
      if p(s[0]) then [s[0]] + rest else rest
  }

  /** The filter keeps the order and the repetitions of its input: filtering
      a concatenation filters each part. */
  lemma {:induction false} FilterAppend(a: seq<FormatRecord>, b: seq<FormatRecord>, p: FormatRecord -> bool)
    ensures Filter(a + b, p) == Filter(a, p) + Filter(b, p)
  {
    if a == [] {
      assert a + b == b;
    } else {
      assert (a + b)[0] == a[0];
      assert (a + b)[1..] == a[1..] + b;
      FilterAppend(a[1..], b, p);
    }
  }

  /** A single record is kept exactly when it passes the test. */
  lemma FilterOne(f: FormatRecord, p: FormatRecord -> bool)
    ensures Filter([f], p) == if p(f) then [f] else []
  {
    assert [f][1..] == [];
  }

  // ---------------------------------------------------------------------------
  // The deduplicating loop
  //
  //   records.forEach(f => {
  //     const k = key(f);
  //     if (!map.has(k) || prefer(f)) map.set(k, make(f));
  //   });
  //   Array.from(map.values())
  //
  // The video loops prefer records that carry audio; the audio loops prefer
  // nothing, so the first record per key stays.

  /** The keys of `s` in order of first appearance: the order in which
      `map.values()` yields the entries. */
  function KeysInOrder(s: seq<FormatRecord>, key: FormatRecord -> int): seq<int>
    decreases |s|
  {
    if s == [] then []
    else
      var ks := KeysInOrder(s[..|s| - 1], key);
      if key(s[|s| - 1]) in ks then ks else ks + [key(s[|s| - 1])]
  }

  /** The record the map holds for key `k` after the loop has seen all of `s`. */
  function Kept(s: seq<FormatRecord>, key: FormatRecord -> int, prefer: FormatRecord -> bool, k: int): Option<FormatRecord>
    decreases |s|
  {
    if s == [] then None
    else
      var last := s[|s| - 1];
      var before := Kept(s[..|s| - 1], key, prefer, k);
      if key(last) == k && (before.None? || prefer(last)) then Some(last) else before
  }

  /** Each key is listed once, and exactly the keys of the records are. */
  lemma {:induction false} KeysInOrderExact(s: seq<FormatRecord>, key: FormatRecord -> int)
    ensures |KeysInOrder(s, key)| <= |s|
    ensures forall i, j :: 0 <= i < j < |KeysInOrder(s, key)| ==> KeysInOrder(s, key)[i] != KeysInOrder(s, key)[j]
    ensures forall k :: k in KeysInOrder(s, key) <==> exists f :: f in s && key(f) == k
  {
    if s != [] {
      var init := s[..|s| - 1];
      KeysInOrderExact(init, key);
      assert s == init + [s[|s| - 1]];
      assert forall f :: f in s <==> f in init || f == s[|s| - 1];
    }
  }

  /** The map holds a record for `k` exactly when `k` was seen, and that
      record is one of the input's with key `k`. */
  lemma {:induction false} KeptIsSome(s: seq<FormatRecord>, key: FormatRecord -> int, prefer: FormatRecord -> bool, k: int)
    ensures Kept(s, key, prefer, k).Some? <==> k in KeysInOrder(s, key)
    ensures Kept(s, key, prefer, k).Some? ==> Kept(s, key, prefer, k).value in s && key(Kept(s, key, prefer, k).value) == k
  {
    if s != [] {
      var init := s[..|s| - 1];
      var last := s[|s| - 1];
      KeptIsSome(init, key, prefer, k);
      var before := Kept(init, key, prefer, k);
      var ks := KeysInOrder(init, key);
      assert k in KeysInOrder(s, key) <==> k in ks || key(last) == k;
      assert before.Some? ==> before.value in s by {
        assert s == init + [last];
      }
    }
  }

  /** When some record with key `k` is preferred, the map ends up holding the
      last such record. */
  lemma {:induction false} KeptLastPreferred(s: seq<FormatRecord>, key: FormatRecord -> int, prefer: FormatRecord -> bool, k: int, i: nat)
    requires i < |s| && key(s[i]) == k && prefer(s[i])
    requires forall j :: i < j < |s| ==> !(key(s[j]) == k && prefer(s[j]))
    ensures Kept(s, key, prefer, k) == Some(s[i])
  {
    var init := s[..|s| - 1];
    if i < |s| - 1 {
      KeptLastPreferred(init, key, prefer, k, i);
    }
  }

  /** When no record with key `k` is preferred, the map holds the first
      record with key `k`. */
  lemma {:induction false} KeptFirst(s: seq<FormatRecord>, key: FormatRecord -> int, prefer: FormatRecord -> bool, k: int, i: nat)
    requires i < |s| && key(s[i]) == k
    requires forall j :: 0 <= j < i ==> key(s[j]) != k
    requires forall j :: i < j < |s| ==> !(key(s[j]) == k && prefer(s[j]))
    ensures Kept(s, key, prefer, k) == Some(s[i])
  {
    var init := s[..|s| - 1];
    if i < |s| - 1 {
      KeptFirst(init, key, prefer, k, i);
    } else {
      KeptNone(init, key, prefer, k);
    }
  }

  lemma {:induction false} KeptNone(s: seq<FormatRecord>, key: FormatRecord -> int, prefer: FormatRecord -> bool, k: int)
    requires forall j :: 0 <= j < |s| ==> key(s[j]) != k
    ensures Kept(s, key, prefer, k).None?
  {
    if s != [] {
      KeptNone(s[..|s| - 1], key, prefer, k);
    }
  }

  /** If any record with key `k` is preferred, so is the kept one. */
  lemma KeptPrefers(s: seq<FormatRecord>, key: FormatRecord -> int, prefer: FormatRecord -> bool, k: int, i: nat)
    requires i < |s| && key(s[i]) == k && prefer(s[i])
    ensures Kept(s, key, prefer, k).Some? && prefer(Kept(s, key, prefer, k).value)
  {
    var last := LastPreferred(s, key, prefer, k, i);
    KeptLastPreferred(s, key, prefer, k, last);
  }

  /** The index of the last preferred record with key `k`, given one at `i`. */
  lemma {:induction false} LastPreferred(s: seq<FormatRecord>, key: FormatRecord -> int, prefer: FormatRecord -> bool, k: int, i: nat) returns (last: nat)
    requires i < |s| && key(s[i]) == k && prefer(s[i])
    ensures i <= last < |s| && key(s[last]) == k && prefer(s[last])
    ensures forall j :: last < j < |s| ==> !(key(s[j]) == k && prefer(s[j]))
    decreases |s| - i
  {
    var j := i + 1;
    while j < |s| && !(key(s[j]) == k && prefer(s[j]))
      invariant i < j <= |s|
      invariant forall m :: i < m < j ==> !(key(s[m]) == k && prefer(s[m]))
    {
      j := j + 1;
    }
    if j == |s| {
      last := i;
    } else {
      last := LastPreferred(s, key, prefer, k, j);
    }
  }

  /** The record kept for a key that was seen. */
  ghost function KeptRecord(s: seq<FormatRecord>, key: FormatRecord -> int, prefer: FormatRecord -> bool, k: int): (f: FormatRecord)
    requires k in KeysInOrder(s, key)
    ensures f in s && key(f) == k && Kept(s, key, prefer, k) == Some(f)
  {
    KeptIsSome(s, key, prefer, k);
    Kept(s, key, prefer, k).value
  }

  /** The entries the deduplicating loop leaves in the map, in `values()`
      order, each made from the record kept for its key. */
  ghost function Deduplicated<T>(s: seq<FormatRecord>, key: FormatRecord -> int, prefer: FormatRecord -> bool, make: FormatRecord -> T): seq<T>
  {
    var ks := KeysInOrder(s, key);
    seq(|ks|, i requires 0 <= i < |ks| => make(KeptRecord(s, key, prefer, ks[i])))
  }

  /** At most one entry per input record. */
  lemma DeduplicatedLength<T>(s: seq<FormatRecord>, key: FormatRecord -> int, prefer: FormatRecord -> bool, make: FormatRecord -> T)
    ensures |Deduplicated(s, key, prefer, make)| <= |s|
  {
    KeysInOrderExact(s, key);
  }

  /** Every record's key is represented, by the entry made from the record
      kept for that key. */
  lemma DeduplicatedCovers<T>(s: seq<FormatRecord>, key: FormatRecord -> int, prefer: FormatRecord -> bool, make: FormatRecord -> T, f: FormatRecord)
    requires f in s
    ensures key(f) in KeysInOrder(s, key)
    ensures make(KeptRecord(s, key, prefer, key(f))) in Deduplicated(s, key, prefer, make)
  {
    KeysInOrderExact(s, key);
    var ks := KeysInOrder(s, key);
    var i := IndexOf(ks, key(f));
    assert key(f) in ks;
    assert 0 <= i < |ks|;
    assert |Deduplicated(s, key, prefer, make)| == |ks|;
    assert Deduplicated(s, key, prefer, make)[i] == make(KeptRecord(s, key, prefer, key(f)));
  }

  /** Every entry is made from an input record, the one kept for its key. */
  lemma DeduplicatedFrom<T>(s: seq<FormatRecord>, key: FormatRecord -> int, prefer: FormatRecord -> bool, make: FormatRecord -> T, v: T)
    requires v in Deduplicated(s, key, prefer, make)
    ensures exists f :: f in s && key(f) in KeysInOrder(s, key) && f == KeptRecord(s, key, prefer, key(f)) && v == make(f)
  {
    var ks := KeysInOrder(s, key);
    var i :| 0 <= i < |ks| && Deduplicated(s, key, prefer, make)[i] == v;
    var f := KeptRecord(s, key, prefer, ks[i]);
    assert key(f) == ks[i];
  }

  /** When the sort key of an entry tells records with different keys apart,
      the entries have pairwise distinct sort keys, so sorting them orders
      them strictly. */
  lemma DeduplicatedSortsStrictly<T>(s: seq<FormatRecord>, key: FormatRecord -> int, prefer: FormatRecord -> bool, make: FormatRecord -> T, sortKey: T -> real)
    requires forall f, g :: f in s && g in s && key(f) != key(g) ==> sortKey(make(f)) != sortKey(make(g))
    ensures StrictlyDesc(SortDesc(Deduplicated(s, key, prefer, make), sortKey), sortKey)
  {
    var values := Deduplicated(s, key, prefer, make);
    var ks := KeysInOrder(s, key);
    KeysInOrderExact(s, key);
    forall i, j | 0 <= i < j < |values|
      ensures sortKey(values[i]) != sortKey(values[j])
    {
      var f := KeptRecord(s, key, prefer, ks[i]);
      var g := KeptRecord(s, key, prefer, ks[j]);
      assert key(f) != key(g);
    }
    SortDescSorted(values, sortKey);
  }

  /** The `forEach` loop over a `Map`: a key seen for the first time is
      appended to the map's insertion order; a later record replaces the
      entry of a key already present only when `prefer` holds for it, and
      the key keeps its place. */
  method Deduplicate<T>(s: seq<FormatRecord>, key: FormatRecord -> int, prefer: FormatRecord -> bool, make: FormatRecord -> T)
    returns (values: seq<T>)
    ensures values == Deduplicated(s, key, prefer, make)
  {
    var entries: map<int, T> := map[];
    var order: seq<int> := [];
    var i := 0;
    while i < |s|
      invariant 0 <= i <= |s|
      invariant order == KeysInOrder(s[..i], key)
      invariant forall k :: k in entries <==> k in order
      invariant forall k :: k in entries ==> Kept(s[..i], key, prefer, k).Some? && entries[k] == make(Kept(s[..i], key, prefer, k).value)
    {
      var f := s[i];
      var k := key(f);
      assert s[..i + 1][..i] == s[..i];
      if k !in entries || prefer(f) {
        if k !in entries {
          order := order + [k];
        }
        entries := entries[k := make(f)];
      }
      forall k' | k' in entries
        ensures Kept(s[..i + 1], key, prefer, k').Some? && entries[k'] == make(Kept(s[..i + 1], key, prefer, k').value)
      {
        KeptIsSome(s[..i], key, prefer, k');
      }
      i := i + 1;
    }
    assert s[..i] == s;
    assert forall j :: 0 <= j < |order| ==> order[j] in entries by {
      forall j | 0 <= j < |order| ensures order[j] in entries {
        var k := order[j];
        assert k in order;
        assert k in entries <==> k in order;
      }
    }
    values := seq(|order|, j requires 0 <= j < |order| => entries[order[j]]);
    forall j | 0 <= j < |order|
      ensures values[j] == make(KeptRecord(s, key, prefer, order[j]))
    {
    }
  }

  // ---------------------------------------------------------------------------
  // The metadata dump

  /** The fields of the extractor's JSON dump the routes read. */
  datatype Metadata = Metadata(
    id: Option<string>,
    title: Option<string>,
    uploader: Option<string>,
    channel: Option<string>,
    thumbnail: Option<string>,
    duration: Option<real>,
    formats: Option<seq<FormatRecord>>)

  /** The descriptive part of a route's answer. */
  datatype Description = Description(title: string, author: string, thumbnail: string, duration: real, videoId: string)

  /** `https://img.youtube.com/vi/${videoId}/maxresdefault.jpg` */
  function ThumbnailUrl(videoId: string): string
  {
    "https://img.youtube.com/vi/" + videoId + "/maxresdefault.jpg"
  }

  /** `data.formats || []` */
  function FormatsOf(m: Metadata): seq<FormatRecord>
  {
    m.formats.GetOr([])
  }

  /** The description built from a dump with defaults for every missing
      field; `extractVideoId` is consulted when the dump has no id. */
  function Describe(m: Metadata, extractedId: string): (d: Description)
    ensures d.title != "" && d.author != "" && d.thumbnail != ""
    ensures d.title == (if Truthy(m.title) then m.title.value else "Unknown Title")
    ensures Truthy(m.uploader) ==> d.author == m.uploader.value
    ensures !Truthy(m.uploader) && Truthy(m.channel) ==> d.author == m.channel.value
    ensures !Truthy(m.uploader) && !Truthy(m.channel) ==> d.author == "Unknown"
    ensures d.videoId == (if Truthy(m.id) then m.id.value else extractedId)
    ensures !Truthy(m.thumbnail) ==> d.thumbnail == ThumbnailUrl(d.videoId)
    ensures Truthy(m.thumbnail) ==> d.thumbnail == m.thumbnail.value
    ensures m.duration.Some? ==> d.duration == m.duration.value
    ensures m.duration.None? ==> d.duration == 0.0
  {
    var videoId := Or(m.id, extractedId);
    Description(
      Or(m.title, "Unknown Title"),
      Or(m.uploader, Or(m.channel, "Unknown")),
      Or(m.thumbnail, ThumbnailUrl(videoId)),
      if m.duration.Some? then m.duration.value else 0.0,
      videoId)
  }
}
