/**
 * What `create_clip` assembles for one post, with every media object reduced
 * to its path and every clip to its duration: one still slide per image, the
 * narration laid under the slides, and the post's own videos after them.
 */
module Segments {

  /** `ImageClip(image, duration=seconds)`. */
  datatype Slide = Slide(image: string, seconds: real)

  /** The per-post clip: the slides with the narration audio as soundtrack,
      followed by the attached videos, which keep their own audio. */
  datatype Segment = Segment(slides: seq<Slide>, narrationMs: nat, videos: seq<string>)

  /** The comprehension of line 85: every image on screen for `duration / len(images)`. */
  function Slides(images: seq<string>, duration: real): (r: seq<Slide>)
    requires |images| > 0
    ensures |r| == |images|
    ensures forall k :: 0 <= k < |r| ==>
      r[k].image == images[k] && r[k].seconds * (|images| as real) == duration
  {
    seq(|images|, k requires 0 <= k < |images| => Slide(images[k], duration / (|images| as real)))
  }

  /** How long the slides are on screen, one after the other. */
  function TotalSeconds(slides: seq<Slide>): real {
    if slides == [] then 0.0 else TotalSeconds(slides[..|slides| - 1]) + slides[|slides| - 1].seconds
  }

  lemma {:induction false} TotalOfEqualSlides(slides: seq<Slide>, each: real)
    requires forall k :: 0 <= k < |slides| ==> slides[k].seconds == each
    ensures TotalSeconds(slides) == (|slides| as real) * each
  {
    if slides != [] {
      TotalOfEqualSlides(slides[..|slides| - 1], each);
    }
  }

  /** The slides together fill the narration exactly. */
  lemma SlidesFillDuration(images: seq<string>, duration: real)
    requires |images| > 0
    ensures TotalSeconds(Slides(images, duration)) == duration
  {
    var n := |images| as real;
    TotalOfEqualSlides(Slides(images, duration), duration / n);
  }

  /** With a single image, the one slide carries the whole duration. */
  lemma SingleImage(image: string, duration: real)
    ensures Slides([image], duration) == [Slide(image, duration)]
  {
  }

  /** Lines 83-102: the narrated slides first, then the videos in fetch order. */
  function Render(images: seq<string>, clips: seq<string>, duration: real, narrationMs: nat): (r: Segment)
    requires |images| > 0
    ensures r.slides == Slides(images, duration)
    ensures |r.slides| == |images| && TotalSeconds(r.slides) == duration
    ensures forall k :: 0 <= k < |images| ==> r.slides[k].image == images[k]
    ensures r.narrationMs == narrationMs && r.videos == clips
  {
    SlidesFillDuration(images, duration);
    Segment(Slides(images, duration), narrationMs, clips)
  }
}
