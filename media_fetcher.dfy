/**
 * The decisions `download_media` takes for one post: which variant of a video
 * it fetches, which attachments it skips, and the scratch path each download
 * gets. The download itself and the in-place resize of images are I/O and are
 * not part of this model; the method returns the two lists of paths.
 */
module MediaFetcher {
  import opened Wrappers
  import opened Strings

  /** One entry of `video_info['variants']`; `bitrate` may be missing. */
  datatype Variant = Variant(url: string, bitrate: Option<int>)

  /** One entry of `extended_entities['media']`: with `video_info` (a video or
      animated GIF) or without it (a photo, fetched from `media_url`). */
  datatype Media = Video(variants: seq<Variant>) | Photo(mediaUrl: string)

  /** `variant['bitrate'] if 'bitrate' in variant else 0`. */
  function Rate(v: Variant): int {
    if v.bitrate.Some? then v.bitrate.value else 0
  }

  /** The state `(bit_rate, video_url)` of the inner loop after the first `n` variants. */
  function BestUpTo(vs: seq<Variant>, n: nat): (int, Option<string>)
    requires n <= |vs|
  {
    if n == 0 then (0, None)
    else
      var (b, u) := BestUpTo(vs, n - 1);
      if Rate(vs[n - 1]) > b then (Rate(vs[n - 1]), Some(vs[n - 1].url)) else (b, u)
  }

  /** Variant `k` is the first among the first `n` whose rate is the greatest, and that rate is positive. */
  ghost predicate FirstGreatest(vs: seq<Variant>, n: nat, k: nat)
    requires n <= |vs|
  {
    && k < n
    && Rate(vs[k]) > 0
    && (forall j :: 0 <= j < n ==> Rate(vs[j]) <= Rate(vs[k]))
    && (forall j :: 0 <= j < k ==> Rate(vs[j]) < Rate(vs[k]))
  }

  /** The loop keeps the first variant of strictly greatest positive rate, and
      keeps none exactly when no variant has a positive rate. */
  lemma {:induction false} BestIsFirstGreatest(vs: seq<Variant>, n: nat)
    requires n <= |vs|
    ensures BestUpTo(vs, n).1.None? <==> forall j :: 0 <= j < n ==> Rate(vs[j]) <= 0
    ensures BestUpTo(vs, n).1.None? ==> BestUpTo(vs, n).0 == 0
    ensures BestUpTo(vs, n).1.Some? ==>
      exists k: nat :: FirstGreatest(vs, n, k) && BestUpTo(vs, n) == (Rate(vs[k]), Some(vs[k].url))
  {
    if n > 0 {
      BestIsFirstGreatest(vs, n - 1);
      var (b, u) := BestUpTo(vs, n - 1);
      if u.Some? {
        var k: nat :| FirstGreatest(vs, n - 1, k) && (b, u) == (Rate(vs[k]), Some(vs[k].url));
        if Rate(vs[n - 1]) > b {
          assert FirstGreatest(vs, n, n - 1);
        } else {
          assert FirstGreatest(vs, n, k);
        }
      } else if Rate(vs[n - 1]) > b {
        assert FirstGreatest(vs, n, n - 1);
      }
    }
  }

  /** The inner loop of lines 181-186. */
  method SelectVariant(vs: seq<Variant>) returns (bitRate: int, videoUrl: Option<string>)
    ensures (bitRate, videoUrl) == BestUpTo(vs, |vs|)
  {
    bitRate, videoUrl := 0, None;
    for j := 0 to |vs|
      invariant (bitRate, videoUrl) == BestUpTo(vs, j)
    {
      var br := if vs[j].bitrate.Some? then vs[j].bitrate.value else 0;
      if br > bitRate {
        bitRate := br;
        videoUrl := Some(vs[j].url);
      }
    }
  }

  /** The URL fetched for a video attachment: `if video_url:` also rejects an empty URL. */
  function ChosenUrl(vs: seq<Variant>): Option<string> {
    var u := BestUpTo(vs, |vs|).1;
    if u.Some? && u.value != "" then u else None
  }

  /** At most one variant is the first of greatest rate. */
  lemma FirstGreatestUnique(vs: seq<Variant>, n: nat, k: nat, k': nat)
    requires n <= |vs|
    requires FirstGreatest(vs, n, k) && FirstGreatest(vs, n, k')
    ensures k == k'
  {
  }

  /** A video attachment is fetched exactly when its first variant of strictly greatest
      positive rate has a non-empty URL, and then from that URL; with no positive
      rate it is skipped. */
  lemma ChosenIsFirstGreatest(vs: seq<Variant>)
    ensures ChosenUrl(vs).Some? <==> exists k: nat :: FirstGreatest(vs, |vs|, k) && vs[k].url != ""
    ensures ChosenUrl(vs).Some? ==>
      exists k: nat :: FirstGreatest(vs, |vs|, k) && ChosenUrl(vs).value == vs[k].url
    ensures (forall j :: 0 <= j < |vs| ==> Rate(vs[j]) <= 0) ==> ChosenUrl(vs).None?
  {
    BestIsFirstGreatest(vs, |vs|);
    if k: nat :| FirstGreatest(vs, |vs|, k) && vs[k].url != "" {
      assert !(forall j :: 0 <= j < |vs| ==> Rate(vs[j]) <= 0) by {
        assert Rate(vs[k]) > 0;
      }
      var k': nat :| FirstGreatest(vs, |vs|, k') && BestUpTo(vs, |vs|) == (Rate(vs[k']), Some(vs[k'].url));
      FirstGreatestUnique(vs, |vs|, k, k');
    }
  }

  /** `video_url.rsplit('.', 1)[-1].split('?')[0]`. */
  function VideoSuffix(url: string): string {
    BeforeFirst(AfterLast(url, '.'), '?')
  }

  /** `media_url.rsplit('.', 1)[-1]`: no query stripping for images. */
  function ImageSuffix(url: string): string {
    AfterLast(url, '.')
  }

  /** `'tmp/' + str(i) + '.' + suffix`. */
  function MediaPath(i: nat, suffix: string): string {
    "tmp/" + NatToString(i) + "." + suffix
  }

  /** The attachment's position can be read back from its path. */
  lemma MediaPathPosition(i: nat, suffix: string)
    ensures ParseNat(BeforeFirst(MediaPath(i, suffix)[4..], '.')) == Some(i)
  {
    var digits := NatToString(i);
    assert MediaPath(i, suffix)[4..] == digits + ['.'] + suffix;
    assert '.' !in digits by {
      forall k | 0 <= k < |digits| ensures digits[k] != '.' { assert IsDigit(digits[k]); }
    }
    BeforeFirstOfJoin(digits, '.', suffix);
    ParseNatToString(i);
  }

  /** `images` after the first `n` attachments. */
  function ImagesUpTo(ms: seq<Media>, n: nat): seq<string>
    requires n <= |ms|
  {
    if n == 0 then []
    else if ms[n - 1].Photo? then ImagesUpTo(ms, n - 1) + [PhotoPath(ms, n - 1)]
    else ImagesUpTo(ms, n - 1)
  }

  /** `clips` after the first `n` attachments. */
  function ClipsUpTo(ms: seq<Media>, n: nat): seq<string>
    requires n <= |ms|
  {
    if n == 0 then []
    else if YieldsClip(ms[n - 1]) then ClipsUpTo(ms, n - 1) + [ClipPath(ms, n - 1)]
    else ClipsUpTo(ms, n - 1)
  }

  /** Positions among the first `n` attachments that yield an image. */
  function PhotoPositions(ms: seq<Media>, n: nat): seq<nat>
    requires n <= |ms|
  {
    if n == 0 then []
    else PhotoPositions(ms, n - 1) + (if ms[n - 1].Photo? then [n - 1] else [])
  }

  /** Positions among the first `n` attachments that yield a clip. */
  function ClipPositions(ms: seq<Media>, n: nat): seq<nat>
    requires n <= |ms|
  {
    if n == 0 then []
    else
      ClipPositions(ms, n - 1) + (if YieldsClip(ms[n - 1]) then [n - 1] else [])
  }

  ghost predicate StrictlyIncreasing(ps: seq<nat>) {
    forall a, b :: 0 <= a < b < |ps| ==> ps[a] < ps[b]
  }

  /** The photo positions are exactly the photos among the first `n`, in increasing order. */
  lemma {:induction false} PhotoPositionsExact(ms: seq<Media>, n: nat)
    requires n <= |ms|
    ensures StrictlyIncreasing(PhotoPositions(ms, n))
    ensures forall k :: 0 <= k < |PhotoPositions(ms, n)| ==>
      PhotoPositions(ms, n)[k] < n && ms[PhotoPositions(ms, n)[k]].Photo?
    ensures forall p :: 0 <= p < n && ms[p].Photo? ==> p in PhotoPositions(ms, n)
  {
    if n > 0 {
      PhotoPositionsExact(ms, n - 1);
      var ps := PhotoPositions(ms, n - 1);
      if ms[n - 1].Photo? {
        assert PhotoPositions(ms, n) == ps + [n - 1];
      } else {
        assert PhotoPositions(ms, n) == ps;
      }
    }
  }

  /** The path under which attachment `p` is stored when it is a photo. */
  function PhotoPath(ms: seq<Media>, p: nat): string {
    if p < |ms| && ms[p].Photo? then MediaPath(p, ImageSuffix(ms[p].mediaUrl)) else ""
  }

  /** Images come out in attachment order, one per photo, each named by its position
      (the positions are those of PhotoPositionsExact). */
  lemma {:induction false} ImagesInAttachmentOrder(ms: seq<Media>, n: nat)
    requires n <= |ms|
    ensures |ImagesUpTo(ms, n)| == |PhotoPositions(ms, n)|
    ensures forall k :: 0 <= k < |PhotoPositions(ms, n)| ==>
      ImagesUpTo(ms, n)[k] == PhotoPath(ms, PhotoPositions(ms, n)[k])
  {
    if n > 0 {
      ImagesInAttachmentOrder(ms, n - 1);
      var ps := PhotoPositions(ms, n - 1);
      var imgs := ImagesUpTo(ms, n - 1);
      if ms[n - 1].Photo? {
        var x := PhotoPath(ms, n - 1);
        assert PhotoPositions(ms, n) == ps + [n - 1];
        assert ImagesUpTo(ms, n) == imgs + [x];
        forall k | 0 <= k < |ps| + 1
          ensures (imgs + [x])[k] == PhotoPath(ms, (ps + [n - 1])[k])
        {
          if k < |ps| {
            assert (imgs + [x])[k] == imgs[k] && (ps + [n - 1])[k] == ps[k];
          }
        }
      } else {
        assert PhotoPositions(ms, n) == ps;
        assert ImagesUpTo(ms, n) == imgs;
      }
    }
  }

  /** A video attachment yields a clip exactly when it has a usable variant. */
  predicate YieldsClip(m: Media) {
    m.Video? && ChosenUrl(m.variants).Some?
  }

  /** The clip positions are exactly the videos with a usable variant among the first `n`,
      in increasing order. */
  lemma {:induction false} ClipPositionsExact(ms: seq<Media>, n: nat)
    requires n <= |ms|
    ensures StrictlyIncreasing(ClipPositions(ms, n))
    ensures forall k :: 0 <= k < |ClipPositions(ms, n)| ==>
      ClipPositions(ms, n)[k] < n && YieldsClip(ms[ClipPositions(ms, n)[k]])
    ensures forall p :: 0 <= p < n && YieldsClip(ms[p]) ==> p in ClipPositions(ms, n)
  {
    if n > 0 {
      ClipPositionsExact(ms, n - 1);
      var ps := ClipPositions(ms, n - 1);
      if YieldsClip(ms[n - 1]) {
        assert ClipPositions(ms, n) == ps + [n - 1];
      } else {
        assert ClipPositions(ms, n) == ps;
      }
    }
  }

  /** The path under which attachment `p` is stored when it yields a clip. */
  function ClipPath(ms: seq<Media>, p: nat): string {
    if p < |ms| && YieldsClip(ms[p]) then MediaPath(p, VideoSuffix(ChosenUrl(ms[p].variants).value)) else ""
  }

  /** Clips come out in attachment order, each named by its position and the suffix
      of the chosen URL (the positions are those of ClipPositionsExact). */
  lemma {:induction false} ClipsInAttachmentOrder(ms: seq<Media>, n: nat)
    requires n <= |ms|
    ensures |ClipsUpTo(ms, n)| == |ClipPositions(ms, n)|
    ensures forall k :: 0 <= k < |ClipPositions(ms, n)| ==>
      ClipsUpTo(ms, n)[k] == ClipPath(ms, ClipPositions(ms, n)[k])
  {
    if n > 0 {
      ClipsInAttachmentOrder(ms, n - 1);
      var ps := ClipPositions(ms, n - 1);
      var clips := ClipsUpTo(ms, n - 1);
      if YieldsClip(ms[n - 1]) {
        assert ClipPositions(ms, n) == ps + [n - 1];
        assert ClipsUpTo(ms, n) == clips + [ClipPath(ms, n - 1)];
      } else {
        assert ClipPositions(ms, n) == ps;
        assert ClipsUpTo(ms, n) == clips;
      }
    }
  }

  /** The images `download_media` returns; no media metadata means no images. */
  function Images(media: Option<seq<Media>>): seq<string> {
    if media.None? then [] else ImagesUpTo(media.value, |media.value|)
  }

  /** The clips `download_media` returns; no media metadata means no clips. */
  function Clips(media: Option<seq<Media>>): seq<string> {
    if media.None? then [] else ClipsUpTo(media.value, |media.value|)
  }

  /** `download_media`: `media` is `None` when the post has no `extended_entities`
      or no `media` key in them. */
  method DownloadMedia(media: Option<seq<Media>>) returns (images: seq<string>, clips: seq<string>)
    ensures images == Images(media) && clips == Clips(media)
    ensures media.None? ==> images == [] && clips == []
  {
    if media.None? {
      return [], [];
    }
    var ms := media.value;
    images, clips := [], [];
    for i := 0 to |ms|
      invariant images == ImagesUpTo(ms, i) && clips == ClipsUpTo(ms, i)
    {
      match ms[i]
      case Video(variants) =>
        var bitRate, videoUrl := SelectVariant(variants);
        if videoUrl.Some? && videoUrl.value != "" {
          var path := MediaPath(i, VideoSuffix(videoUrl.value));
          clips := clips + [path];
        }
      case Photo(url) =>
        var imgPath := MediaPath(i, ImageSuffix(url));
        images := images + [imgPath];
    }
  }

  /** The example of a video with variant bitrates 200, 500 and 350: the second is fetched. */
  lemma PicksHighestBitrate(a: string, b: string, c: string)
    requires b != ""
    ensures ChosenUrl([Variant(a, Some(200)), Variant(b, Some(500)), Variant(c, Some(350))]) == Some(b)
  {
    var vs := [Variant(a, Some(200)), Variant(b, Some(500)), Variant(c, Some(350))];
    assert BestUpTo(vs, 1) == (200, Some(a));
    assert BestUpTo(vs, 2) == (500, Some(b));
    assert BestUpTo(vs, 3) == (500, Some(b));
  }
}
