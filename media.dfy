/** The media a tweet carries and the URLs `Downloader.extract_media_list` takes from it.

    A tweet is the part of the timeline API's JSON record the downloader reads: `id`, `id_str`
    and `extended_entities.media`, where each media entry has a `type`, a `media_url` (photos)
    and `video_info.variants` (videos and animated GIFs), each variant an optional `bitrate` and
    a `url`. */
module Media {
  import opened Wrappers
  import opened Text

  datatype Variant = Variant(bitrate: Option<int>, url: string)

  datatype MediaEntry = MediaEntry(kind: string, mediaUrl: string, variants: seq<Variant>)

  /** `extended_entities`: its `media` list when that key is present, and how many other keys
      it has (a dictionary with no keys at all is falsy). */
  datatype ExtendedEntities = ExtendedEntities(media: Option<seq<MediaEntry>>, otherKeys: nat)

  datatype Tweet = Tweet(id: int, idStr: string, extendedEntities: Option<ExtendedEntities>)

  /** `variants[-1]` on an empty variant list raises `IndexError`. */
  datatype ExtractError = EmptyVariants

  const VideoTag: string := "?tag"

  predicate IsTruthy(e: ExtendedEntities)
  {
    e.media.Some? || e.otherKeys > 0
  }

  predicate IsVideoKind(kind: string)
  {
    kind == "video" || kind == "animated_gif"
  }

  /** Whether an entry adds a URL to the list at all. */
  predicate Contributes(m: MediaEntry, includeVideo: bool)
  {
    m.kind == "photo" || (includeVideo && IsVideoKind(m.kind))
  }

  // ---------------------------------------------------------------------------
  // variants.sort(key=lambda x: x.get("bitrate", 0))

  /** `x.get("bitrate", 0)` */
  function Bitrate(v: Variant): int
  {
    match v.bitrate
    case Some(b) => b
    case None => 0
  }

  /** Inserts `v` into a list sorted by bitrate, after every element whose bitrate is not
      greater: the step of a stable sort. */
  function InsertByBitrate(sorted: seq<Variant>, v: Variant): (r: seq<Variant>)
    ensures multiset(r) == multiset(sorted) + multiset{v}
    ensures |r| == |sorted| + 1
    decreases |sorted|
  {
    if |sorted| == 0 || Bitrate(sorted[|sorted| - 1]) <= Bitrate(v) then sorted + [v]
    else
      var init := sorted[..|sorted| - 1];
      assert sorted == init + [sorted[|sorted| - 1]];
      InsertByBitrate(init, v) + [sorted[|sorted| - 1]]
  }

  /** `sorted(variants, key=bitrate)`: a stable sort by bitrate, a missing bitrate counting as 0. */
  function SortByBitrate(vs: seq<Variant>): (r: seq<Variant>)
    ensures multiset(r) == multiset(vs)
    ensures |r| == |vs|
    decreases |vs|
  {
    if |vs| == 0 then []
    else
      var init := vs[..|vs| - 1];
      assert vs == init + [vs[|vs| - 1]];
      InsertByBitrate(SortByBitrate(init), vs[|vs| - 1])
  }

  predicate SortedByBitrate(vs: seq<Variant>)
  {
    forall i, j :: 0 <= i < j < |vs| ==> Bitrate(vs[i]) <= Bitrate(vs[j])
  }

  /** Inserting a variant no faster than `b` into variants no faster than `b` gives variants no
      faster than `b`. */
  lemma {:induction false} InsertBounded(sorted: seq<Variant>, v: Variant, b: int)
    requires forall k :: 0 <= k < |sorted| ==> Bitrate(sorted[k]) <= b
    requires Bitrate(v) <= b
    ensures forall k :: 0 <= k < |InsertByBitrate(sorted, v)| ==> Bitrate(InsertByBitrate(sorted, v)[k]) <= b
    decreases |sorted|
  {
    if |sorted| > 0 && Bitrate(sorted[|sorted| - 1]) > Bitrate(v) {
      InsertBounded(sorted[..|sorted| - 1], v, b);
    }
  }

  lemma {:induction false} InsertKeepsSorted(sorted: seq<Variant>, v: Variant)
    requires SortedByBitrate(sorted)
    ensures SortedByBitrate(InsertByBitrate(sorted, v))
    decreases |sorted|
  {
    if |sorted| > 0 && Bitrate(sorted[|sorted| - 1]) > Bitrate(v) {
      var init := sorted[..|sorted| - 1];
      var last := sorted[|sorted| - 1];
      InsertKeepsSorted(init, v);
      InsertBounded(init, v, Bitrate(last));
      var r0 := InsertByBitrate(init, v);
      assert InsertByBitrate(sorted, v) == r0 + [last];
    }
  }

  /** The sorted list is a permutation of the variants, ordered by bitrate. */
  lemma {:induction false} SortByBitrateSorted(vs: seq<Variant>)
    ensures SortedByBitrate(SortByBitrate(vs))
    decreases |vs|
  {
    if |vs| > 0 {
      SortByBitrateSorted(vs[..|vs| - 1]);
      InsertKeepsSorted(SortByBitrate(vs[..|vs| - 1]), vs[|vs| - 1]);
    }
  }

  /** `k` is the position of the last variant of greatest bitrate. */
  predicate IsLastMax(vs: seq<Variant>, k: int)
  {
    0 <= k < |vs|
    && (forall j :: 0 <= j < |vs| ==> Bitrate(vs[j]) <= Bitrate(vs[k]))
    && (forall j :: k < j < |vs| ==> Bitrate(vs[j]) < Bitrate(vs[k]))
  }

  /** Taking the last element after a stable sort picks the last of the variants that share
      the greatest bitrate. */
  lemma {:induction false} SortedLastIsLastMax(vs: seq<Variant>) returns (k: int)
    requires |vs| > 0
    ensures IsLastMax(vs, k)
    ensures SortByBitrate(vs)[|vs| - 1] == vs[k]
    decreases |vs|
  {
    var n := |vs|;
    if n == 1 {
      k := 0;
      SortSingleton(vs);
    } else {
      var k0 := SortedLastIsLastMax(vs[..n - 1]);
      assert vs[..n - 1][k0] == vs[k0];
      SortSnocLast(vs);
      if Bitrate(vs[k0]) <= Bitrate(vs[n - 1]) {
        NewLastIsLastMax(vs, k0);
        k := n - 1;
      } else {
        OldLastIsLastMax(vs, k0);
        k := k0;
      }
    }
  }

  /** The sort's last element after one more variant: the new variant when it is at least as
      fast as the previous last, which stays last otherwise. */
  lemma SortSnocLast(vs: seq<Variant>)
    requires |vs| > 1
    ensures var n := |vs|;
            var last := SortByBitrate(vs[..n - 1])[n - 2];
            SortByBitrate(vs)[n - 1] == if Bitrate(last) <= Bitrate(vs[n - 1]) then vs[n - 1] else last
  {
    InsertLast(SortByBitrate(vs[..|vs| - 1]), vs[|vs| - 1]);
  }

  lemma SortSingleton(vs: seq<Variant>)
    requires |vs| == 1
    ensures SortByBitrate(vs) == vs
  {
    assert vs[..0] == [];
  }

  lemma InsertLast(s: seq<Variant>, x: Variant)
    requires |s| > 0
    ensures InsertByBitrate(s, x)[|s|] == if Bitrate(s[|s| - 1]) <= Bitrate(x) then x else s[|s| - 1]
  {
  }

  /** A variant appended at least as fast as the last maximum so far is the new last maximum. */
  lemma NewLastIsLastMax(vs: seq<Variant>, k0: int)
    requires |vs| > 1 && IsLastMax(vs[..|vs| - 1], k0) && Bitrate(vs[k0]) <= Bitrate(vs[|vs| - 1])
    ensures IsLastMax(vs, |vs| - 1)
  {
    forall j | 0 <= j < |vs| ensures Bitrate(vs[j]) <= Bitrate(vs[|vs| - 1]) {
      if j < |vs| - 1 {
        assert vs[j] == vs[..|vs| - 1][j];
      }
    }
  }

  /** A variant appended slower than the last maximum so far leaves it the last maximum. */
  lemma OldLastIsLastMax(vs: seq<Variant>, k0: int)
    requires |vs| > 1 && IsLastMax(vs[..|vs| - 1], k0) && Bitrate(vs[k0]) > Bitrate(vs[|vs| - 1])
    ensures IsLastMax(vs, k0)
  {
    forall j | 0 <= j < |vs| ensures Bitrate(vs[j]) <= Bitrate(vs[k0]) {
      if j < |vs| - 1 {
        assert vs[j] == vs[..|vs| - 1][j];
      }
    }
    forall j | k0 < j < |vs| ensures Bitrate(vs[j]) < Bitrate(vs[k0]) {
      if j < |vs| - 1 {
        assert vs[j] == vs[..|vs| - 1][j];
      }
    }
  }

  // ---------------------------------------------------------------------------
  // extract_media_list

  /** The URL of a video: the variant of greatest bitrate, cut at `?tag`. */
  function VideoUrl(vs: seq<Variant>): Result<string, ExtractError>
  {
    if |vs| == 0 then Err(EmptyVariants)
    else Ok(BeforeFirst(SortByBitrate(vs)[|vs| - 1].url, VideoTag))
  }

  /** What one media entry adds to the list: a URL, nothing, or the error it raises. */
  function Contribution(m: MediaEntry, includeVideo: bool): Result<Option<string>, ExtractError>
  {
    if m.kind == "photo" then Ok(Some(m.mediaUrl))
    else if IsVideoKind(m.kind) && includeVideo then
      match VideoUrl(m.variants)
      case Ok(u) => Ok(Some(u))
      case Err(e) => Err(e)
    else Ok(None)
  }

  /** The URLs of `media` in order, or the first error an entry raises. */
  function MediaUrls(media: seq<MediaEntry>, includeVideo: bool): Result<seq<string>, ExtractError>
    decreases |media|
  {
    if |media| == 0 then Ok([])
    else
      match MediaUrls(media[..|media| - 1], includeVideo)
      case Err(e) => Err(e)
      case Ok(prefix) =>
        match Contribution(media[|media| - 1], includeVideo)
        case Err(e) => Err(e)
        case Ok(None) => Ok(prefix)
        case Ok(Some(u)) => Ok(prefix + [u])
  }

  /** `extract_media_list(tweet, include_video)`, as a value. */
  function ExtractMediaListSpec(tweet: Tweet, includeVideo: bool): Result<seq<string>, ExtractError>
  {
    match tweet.extendedEntities
    case None => Ok([])
    case Some(e) =>
      if !IsTruthy(e) then Ok([])
      else
        match e.media
        case None => Ok([])
        case Some(media) => MediaUrls(media, includeVideo)
  }

  /** The entry as it is after extraction: a video's variants are left sorted by bitrate. */
  function AfterExtraction(m: MediaEntry, includeVideo: bool): MediaEntry
  {
    if IsVideoKind(m.kind) && includeVideo
    then m.(variants := SortByBitrate(m.variants))
    else m
  }

  /** The positions of the entries that add a URL, in increasing order. */
  function ContributingIndices(media: seq<MediaEntry>, includeVideo: bool): (r: seq<int>)
    ensures forall k :: 0 <= k < |r| ==> 0 <= r[k] < |media| && Contributes(media[r[k]], includeVideo)
    ensures forall k, l :: 0 <= k < l < |r| ==> r[k] < r[l]
    ensures forall j :: 0 <= j < |media| && Contributes(media[j], includeVideo) ==> j in r
    decreases |media|
  {
    if |media| == 0 then []
    else
      var n := |media|;
      var prefix := ContributingIndices(media[..n - 1], includeVideo);
      assert forall j :: 0 <= j < n - 1 ==> media[..n - 1][j] == media[j];
      if Contributes(media[n - 1], includeVideo) then prefix + [n - 1] else prefix
  }

  /** The URL an entry that contributes adds, when it raises nothing. */
  function UrlOf(m: MediaEntry): string
  {
    if m.kind == "photo" || |m.variants| == 0 then m.mediaUrl
    else BeforeFirst(SortByBitrate(m.variants)[|m.variants| - 1].url, VideoTag)
  }

  /** The list holds one URL per contributing entry, in the entries' order: every photo's
      `media_url`, and, when videos are included, every video's chosen URL. Hence never more
      URLs than entries. */
  lemma {:induction false} MediaUrlsInSourceOrder(media: seq<MediaEntry>, includeVideo: bool)
    requires MediaUrls(media, includeVideo).Ok?
    ensures var r := MediaUrls(media, includeVideo).value;
            var idx := ContributingIndices(media, includeVideo);
            |r| == |idx| <= |media| &&
            forall k :: 0 <= k < |r| ==> r[k] == UrlOf(media[idx[k]])
    decreases |media|
  {
    var idx := ContributingIndices(media, includeVideo);
    if |media| > 0 {
      var n := |media|;
      var init := media[..n - 1];
      MediaUrlsLast(media, includeVideo);
      MediaUrlsInSourceOrder(init, includeVideo);
      UrlsAtIndicesSnoc(media, MediaUrls(init, includeVideo).value, ContributingIndices(init, includeVideo),
                        MediaUrls(media, includeVideo).value, idx);
    }
    IndicesBound(idx, |media|);
  }

  /** The URLs at the positions `idx0` of all entries but the last stay the URLs at the
      positions `idx` of all entries, when the last entry adds its URL and position or nothing. */
  lemma UrlsAtIndicesSnoc(media: seq<MediaEntry>, r0: seq<string>, idx0: seq<int>, r: seq<string>, idx: seq<int>)
    requires |media| > 0 && |r0| == |idx0|
    requires forall k :: 0 <= k < |idx0| ==> 0 <= idx0[k] < |media| - 1
    requires forall k :: 0 <= k < |r0| ==> r0[k] == UrlOf(media[..|media| - 1][idx0[k]])
    requires (r == r0 + [UrlOf(media[|media| - 1])] && idx == idx0 + [|media| - 1]) || (r == r0 && idx == idx0)
    ensures |r| == |idx|
    ensures forall k :: 0 <= k < |r| ==> 0 <= idx[k] < |media| && r[k] == UrlOf(media[idx[k]])
  {
    forall k | 0 <= k < |r| ensures 0 <= idx[k] < |media| && r[k] == UrlOf(media[idx[k]]) {
      if k < |r0| {
        assert r[k] == r0[k] && idx[k] == idx0[k];
        assert media[..|media| - 1][idx0[k]] == media[idx0[k]];
      }
    }
  }

  /** The last entry adds `UrlOf` of itself when it contributes and nothing otherwise, to both
      the URLs and the contributing positions of the entries before it. */
  lemma MediaUrlsLast(media: seq<MediaEntry>, includeVideo: bool)
    requires |media| > 0 && MediaUrls(media, includeVideo).Ok?
    ensures var n := |media|;
            var r := MediaUrls(media, includeVideo);
            var r0 := MediaUrls(media[..n - 1], includeVideo);
            var idx := ContributingIndices(media, includeVideo);
            var idx0 := ContributingIndices(media[..n - 1], includeVideo);
            r0.Ok? &&
            (Contributes(media[n - 1], includeVideo) ==>
               r.value == r0.value + [UrlOf(media[n - 1])] && idx == idx0 + [n - 1]) &&
            (!Contributes(media[n - 1], includeVideo) ==> r.value == r0.value && idx == idx0)
  {
    ContributionAgrees(media[|media| - 1], includeVideo);
  }

  /** An entry that raises nothing adds a URL exactly when it contributes, and then `UrlOf`. */
  lemma ContributionAgrees(m: MediaEntry, includeVideo: bool)
    ensures Contribution(m, includeVideo).Ok? ==>
              (Contribution(m, includeVideo).value.Some? <==> Contributes(m, includeVideo))
    ensures Contribution(m, includeVideo).Ok? && Contribution(m, includeVideo).value.Some? ==>
              Contribution(m, includeVideo).value.value == UrlOf(m)
  {
  }

  /** Strictly increasing indices below `n` number at most `n`. */
  lemma {:induction false} IndicesBound(idx: seq<int>, n: int)
    requires 0 <= n
    requires forall k :: 0 <= k < |idx| ==> 0 <= idx[k] < n
    requires forall k, l :: 0 <= k < l < |idx| ==> idx[k] < idx[l]
    ensures |idx| <= n
    decreases |idx|
  {
    if |idx| > 0 {
      var last := idx[|idx| - 1];
      var init := idx[..|idx| - 1];
      assert forall k :: 0 <= k < |init| ==> init[k] == idx[k] && idx[k] < last;
      IndicesBound(init, last);
      assert last < n;
    }
  }

  /** The URLs of all photo entries, in order. */
  function PhotoUrls(media: seq<MediaEntry>): seq<string>
    decreases |media|
  {
    if |media| == 0 then []
    else
      var n := |media|;
      PhotoUrls(media[..n - 1]) + (if media[n - 1].kind == "photo" then [media[n - 1].mediaUrl] else [])
  }

  /** Without videos the list never fails and is exactly the photos' URLs: videos, GIFs and
      unknown kinds add nothing. */
  lemma {:induction false} PhotosOnlyWithoutVideo(media: seq<MediaEntry>)
    ensures MediaUrls(media, false) == Ok(PhotoUrls(media))
    decreases |media|
  {
    if |media| > 0 {
      var n := |media|;
      PhotosOnlyWithoutVideo(media[..n - 1]);
      var m := media[n - 1];
      assert Contribution(m, false) == if m.kind == "photo" then Ok(Some(m.mediaUrl)) else Ok(None);
      assert MediaUrls(media[..n - 1], false) == Ok(PhotoUrls(media[..n - 1]));
      if m.kind == "photo" {
        assert MediaUrls(media, false) == Ok(PhotoUrls(media[..n - 1]) + [m.mediaUrl]);
      } else {
        assert MediaUrls(media, false) == Ok(PhotoUrls(media[..n - 1]));
        assert PhotoUrls(media) == PhotoUrls(media[..n - 1]) + [];
        assert PhotoUrls(media[..n - 1]) + [] == PhotoUrls(media[..n - 1]);
      }
    }
  }

  /** A tweet without `extended_entities`, with a falsy one, or with one lacking `media`
      yields no URLs. */
  lemma NoExtendedEntitiesNoMedia(tweet: Tweet, includeVideo: bool)
    requires tweet.extendedEntities.None? || !IsTruthy(tweet.extendedEntities.value)
             || tweet.extendedEntities.value.media.None?
    ensures ExtractMediaListSpec(tweet, includeVideo) == Ok([])
  {
  }

  /** A video's URL is a prefix of the URL of a variant of greatest bitrate, the last such
      variant in list order, cut just before the first `?tag`; it contains no `?tag`. */
  lemma VideoUrlChoice(vs: seq<Variant>) returns (k: int)
    requires |vs| > 0
    ensures IsLastMax(vs, k)
    ensures VideoUrl(vs).Ok?
    ensures VideoUrl(vs).value == BeforeFirst(vs[k].url, VideoTag)
    ensures StartsWith(vs[k].url, VideoUrl(vs).value) && !Contains(VideoUrl(vs).value, VideoTag)
  {
    k := SortedLastIsLastMax(vs);
  }

  /** Once an entry raises, the whole extraction raises that error. */
  lemma {:induction false} ErrorPropagates(media: seq<MediaEntry>, n: int, includeVideo: bool)
    requires 0 <= n <= |media|
    requires MediaUrls(media[..n], includeVideo).Err?
    ensures MediaUrls(media, includeVideo) == MediaUrls(media[..n], includeVideo)
    decreases |media| - n
  {
    if n < |media| {
      var m := media[..n + 1];
      assert m[..n] == media[..n];
      assert MediaUrls(m, includeVideo) == MediaUrls(media[..n], includeVideo);
      ErrorPropagates(media, n + 1, includeVideo);
    } else {
      assert media[..n] == media;
    }
  }

  /** `extract_media_list(tweet, include_video)`: appends each entry's URL in turn and sorts
      each video's variants in place; the tweet as it is afterwards is returned beside the
      result. */
  method ExtractMediaList(tweet: Tweet, includeVideo: bool) returns (r: Result<seq<string>, ExtractError>, after: Tweet)
    ensures r == ExtractMediaListSpec(tweet, includeVideo)
    ensures after.id == tweet.id && after.idStr == tweet.idStr
    ensures r.Ok? && tweet.extendedEntities.Some? && tweet.extendedEntities.value.media.Some?
              && IsTruthy(tweet.extendedEntities.value) ==>
              var media := tweet.extendedEntities.value.media.value;
              after.extendedEntities == Some(tweet.extendedEntities.value.(media :=
                Some(seq(|media|, i requires 0 <= i < |media| => AfterExtraction(media[i], includeVideo)))))
    ensures (r.Ok? && !(tweet.extendedEntities.Some? && tweet.extendedEntities.value.media.Some?
                        && IsTruthy(tweet.extendedEntities.value))) ==> after == tweet
  {
    after := tweet;
    var rv := [];
    if tweet.extendedEntities.None? || !IsTruthy(tweet.extendedEntities.value) {
      return Ok(rv), after;
    }
    var extended := tweet.extendedEntities.value;
    if extended.media.None? {
      return Ok(rv), after;
    }
    var media := extended.media.value;
    var done;
    r, done := ExtractEntries(media, includeVideo);
    if r.Ok? {
      AfterExtractionAll(media, includeVideo, done);
    }
    after := tweet.(extendedEntities := Some(extended.(media := Some(done))));
  }

  /** The loop of `extract_media_list` over the media entries: the URLs in order, or the first
      error raised, and the entries as the loop leaves them (those it reached with their
      variants sorted). */
  method ExtractEntries(media: seq<MediaEntry>, includeVideo: bool)
    returns (r: Result<seq<string>, ExtractError>, done: seq<MediaEntry>)
    ensures r == MediaUrls(media, includeVideo)
    ensures r.Ok? ==> |done| == |media|
    ensures r.Ok? ==> forall j :: 0 <= j < |media| ==> done[j] == AfterExtraction(media[j], includeVideo)
  {
    var rv := [];
    done := [];
    var i := 0;
    while i < |media|
      invariant 0 <= i <= |media|
      invariant MediaUrls(media[..i], includeVideo) == Ok(rv)
      invariant |done| == i && forall j :: 0 <= j < i ==> done[j] == AfterExtraction(media[j], includeVideo)
    {
      var c, y := ExtractEntry(media[i], includeVideo);
      MediaUrlsStep(media, i, includeVideo, rv, c);
      AfterExtractionSnoc(media, i, includeVideo, done, y);
      done := done + [y];
      if c.Err? {
        ErrorPropagates(media, i + 1, includeVideo);
        return Err(c.error), done + media[i + 1..];
      }
      if c.value.Some? {
        rv := rv + [c.value.value];
      }
      i := i + 1;
    }
    assert media[..i] == media;
    r := Ok(rv);
  }

  lemma AfterExtractionAll(media: seq<MediaEntry>, includeVideo: bool, done: seq<MediaEntry>)
    requires |done| == |media|
    requires forall j :: 0 <= j < |media| ==> done[j] == AfterExtraction(media[j], includeVideo)
    ensures done == seq(|media|, i requires 0 <= i < |media| => AfterExtraction(media[i], includeVideo))
  {
  }

  lemma AfterExtractionSnoc(media: seq<MediaEntry>, i: int, includeVideo: bool, done: seq<MediaEntry>, y: MediaEntry)
    requires 0 <= i < |media| && |done| == i
    requires forall j :: 0 <= j < i ==> done[j] == AfterExtraction(media[j], includeVideo)
    requires y == AfterExtraction(media[i], includeVideo)
    ensures forall j :: 0 <= j < i + 1 ==> (done + [y])[j] == AfterExtraction(media[j], includeVideo)
  {
  }

  /** The body of the loop for one entry: a photo's `media_url`; a video's variants sorted in
      place and the URL of the last one; nothing for any other entry. */
  method ExtractEntry(x: MediaEntry, includeVideo: bool) returns (c: Result<Option<string>, ExtractError>, y: MediaEntry)
    ensures c == Contribution(x, includeVideo) && y == AfterExtraction(x, includeVideo)
  {
    y := x;
    if x.kind == "photo" {
      c := Ok(Some(x.mediaUrl));
    } else if IsVideoKind(x.kind) && includeVideo {
      var variants := SortByBitrate(x.variants);
      y := x.(variants := variants);
      if |variants| == 0 {
        c := Err(EmptyVariants);
      } else {
        c := Ok(Some(BeforeFirst(variants[|variants| - 1].url, VideoTag)));
      }
    } else {
      c := Ok(None);
    }
  }

  /** One more entry: its contribution is added to the URLs of the entries before it. */
  lemma MediaUrlsStep(media: seq<MediaEntry>, i: int, includeVideo: bool, rv: seq<string>,
                      c: Result<Option<string>, ExtractError>)
    requires 0 <= i < |media| && MediaUrls(media[..i], includeVideo) == Ok(rv)
    requires c == Contribution(media[i], includeVideo)
    ensures c.Err? ==> MediaUrls(media[..i + 1], includeVideo) == Err(c.error)
    ensures c.Ok? && c.value.None? ==> MediaUrls(media[..i + 1], includeVideo) == Ok(rv)
    ensures c.Ok? && c.value.Some? ==> MediaUrls(media[..i + 1], includeVideo) == Ok(rv + [c.value.value])
  {
    assert media[..i + 1][..i] == media[..i];
  }
}
