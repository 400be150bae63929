/**
 * The scratch workspace and the per-post loop of `read_timeline`. The two
 * directories the program touches, `tmp/` and `tmp/videos/`, are maps from
 * entry name to entry, fields of a `Disk` object that the operations update;
 * the final `tweet_video.mp4` is the sequence of segments it concatenates.
 */
module Pipeline {
  import opened Wrappers
  import opened Strings
  import opened TextClean
  import opened MediaFetcher
  import opened Narration
  import opened Caption
  import opened Segments
  import opened Ordering

  /** One timeline status: `author.screen_name`, `full_text`, `lang`, `extended_entities['media']`. */
  datatype Tweet = Tweet(author: string, fullText: string, lang: string, media: Option<seq<Media>>)

  /** What a file holds, as far as the pipeline reads it back. */
  datatype Content =
    | Audio(ms: nat)              // an mp3 of this length
    | Board(lines: seq<Line>)      // the annotated board image
    | Rendered(segment: Segment)   // a per-post video
    | Other                        // anything the pipeline never reads

  datatype Entry = File(content: Content) | Dir

  const BoardName: string := "board.jpeg"
  const BoardPath: string := "tmp/board.jpeg"
  const NarrationName: string := "res.mp3"

  /** The entries that `clear_tmp` / `clear_videos` leave: the subdirectories. */
  function DirsOnly(m: map<string, Entry>): map<string, Entry> {
    map n | n in m && m[n].Dir? :: m[n]
  }

  predicate NoFiles(m: map<string, Entry>) {
    forall n :: n in m ==> m[n].Dir?
  }

  /** Clearing removes exactly the files; clearing again changes nothing. */
  lemma ClearingIsIdempotent(m: map<string, Entry>)
    ensures NoFiles(DirsOnly(m))
    ensures forall n :: n in m && m[n].Dir? ==> n in DirsOnly(m) && DirsOnly(m)[n] == m[n]
    ensures forall n :: n in m && m[n].File? ==> n !in DirsOnly(m)
    ensures DirsOnly(DirsOnly(m)) == DirsOnly(m)
  {
  }

  /** Writing a file and clearing leaves what clearing alone leaves, unless the name was a directory. */
  lemma ClearForgetsFile(m: map<string, Entry>, name: string, c: Content)
    requires name !in m || m[name].File?
    ensures DirsOnly(m[name := File(c)]) == DirsOnly(m)
  {
  }

  /** `os.listdir`: every entry once, in an order the model leaves open. */
  method ListDir(m: map<string, Entry>) returns (names: seq<string>)
    ensures |names| == |m|
    ensures forall n :: n in names <==> n in m
    ensures forall a, b :: 0 <= a < b < |names| ==> names[a] != names[b]
  {
    names := [];
    var rest := m.Keys;
    while rest != {}
      invariant forall n :: n in m <==> n in names || n in rest
      invariant forall n :: n in names ==> n !in rest
      invariant rest <= m.Keys
      invariant forall a, b :: 0 <= a < b < |names| ==> names[a] != names[b]
      invariant |names| + |rest| == |m|
      decreases |rest|
    {
      var n :| n in rest;
      names := names + [n];
      rest := rest - {n};
    }
  }

  /** The loop shared by `clear_tmp` and `clear_videos`: every listed entry that is
      not a directory is removed. */
  method RemoveFiles(entries: map<string, Entry>) returns (left: map<string, Entry>)
    ensures left == DirsOnly(entries)
  {
    var names := ListDir(entries);
    left := entries;
    for i := 0 to |names|
      invariant forall n :: n in left <==> n in entries && (entries[n].Dir? || n in names[i..])
      invariant forall n :: n in left ==> left[n] == entries[n]
    {
      var name := names[i];
      NextListed(names, i);
      if !left[name].Dir? {
        left := left - {name};
      }
    }
    assert names[|names|..] == [];
    DirsOnlyExact(entries, left);
  }

  /** A map that keeps the directories of `entries`, unchanged, and nothing else. */
  lemma DirsOnlyExact(entries: map<string, Entry>, left: map<string, Entry>)
    requires forall n :: n in left <==> n in entries && entries[n].Dir?
    requires forall n :: n in left ==> left[n] == entries[n]
    ensures left == DirsOnly(entries)
  {
  }

  /** Stepping past one entry of a listing without repeats leaves the others to visit. */
  lemma NextListed(names: seq<string>, i: nat)
    requires i < |names|
    requires forall a, b :: 0 <= a < b < |names| ==> names[a] != names[b]
    ensures forall n :: n in names[i..] <==> n == names[i] || n in names[i + 1..]
    ensures names[i] !in names[i + 1..]
  {
    assert names[i..] == [names[i]] + names[i + 1..];
    var rest := names[i + 1..];
    forall k | 0 <= k < |rest| ensures rest[k] != names[i] {
      assert rest[k] == names[i + 1 + k];
    }
  }

  /** The narration `create_clip` opens: `tmp/res.mp3` when it is an audio file. */
  function NarrationAudio(tmp: map<string, Entry>): Option<nat> {
    if NarrationName in tmp && tmp[NarrationName].File? && tmp[NarrationName].content.Audio?
    then Some(tmp[NarrationName].content.ms) else None
  }

  /** `[::-1]`: the timeline arrives newest first and is processed oldest first. */
  function Reverse(s: seq<Tweet>): (r: seq<Tweet>)
    ensures |r| == |s| && forall k :: 0 <= k < |s| ==> r[k] == s[|s| - 1 - k]
  {
    if s == [] then [] else [s[|s| - 1]] + Reverse(s[..|s| - 1])
  }

  /** The narration of one post at the only call site: cleaned text, index 0. */
  function ItemTalk(t: Tweet, e: Engine): Talk {
    TweetTalk(e, t.author, Clean(t.fullText), t.lang, 0, None)
  }

  /** `duration > 0`: the post gets a segment. */
  predicate Renders(t: Tweet, e: Engine) {
    ItemTalk(t, e).Spoken?
  }

  /** `images if images else ['tmp/board.jpeg']`. */
  function SlideImages(t: Tweet): (r: seq<string>)
    ensures |r| > 0
    ensures Images(t.media) == [] ==> r == [BoardPath]
    ensures Images(t.media) != [] ==> r == Images(t.media)
  {
    if Images(t.media) != [] then Images(t.media) else [BoardPath]
  }

  /** The segment a rendered post is written as. */
  function SegmentOf(t: Tweet, e: Engine): Segment
    requires Renders(t, e)
  {
    var talk := ItemTalk(t, e);
    Render(SlideImages(t), Clips(t.media), Seconds(talk), talk.ms)
  }

  /** What one post contributes to the final video: its segment, or nothing. */
  function PostSegment(t: Tweet, e: Engine): (r: Option<Segment>)
    ensures r.Some? <==> Renders(t, e)
  {
    if Renders(t, e) then Some(SegmentOf(t, e)) else None
  }

  /** What each post contributes, in processing order. */
  function Plan(items: seq<Tweet>, e: Engine): (r: seq<Option<Segment>>)
    ensures |r| == |items|
  {
    if items == [] then [] else Plan(items[..|items| - 1], e) + [PostSegment(items[|items| - 1], e)]
  }

  lemma {:induction false} PlanAt(items: seq<Tweet>, e: Engine, k: nat)
    requires k < |items|
    ensures Plan(items, e)[k] == PostSegment(items[k], e)
  {
    if k < |items| - 1 {
      PlanAt(items[..|items| - 1], e, k);
    }
  }

  /** Indices, among the first `n` entries of a plan, that carry a segment. */
  function RenderedIndices<T>(plan: seq<Option<T>>, n: nat): seq<nat>
    requires n <= |plan|
  {
    if n == 0 then []
    else RenderedIndices(plan, n - 1) + (if plan[n - 1].Some? then [n - 1] else [])
  }

  /** The segments of the first `n` entries of a plan, in plan order. */
  function Present<T>(plan: seq<Option<T>>, n: nat): seq<T>
    requires n <= |plan|
  {
    if n == 0 then []
    else Present(plan, n - 1) + (if plan[n - 1].Some? then [plan[n - 1].value] else [])
  }

  /** `tmp/videos/` after the first `n` posts of a plan. */
  function SegmentFiles(plan: seq<Option<Segment>>, n: nat): map<string, Entry>
    requires n <= |plan|
  {
    if n == 0 then map[]
    else if plan[n - 1].Some? then
      SegmentFiles(plan, n - 1)[SegmentName(n - 1) := File(Rendered(plan[n - 1].value))]
    else SegmentFiles(plan, n - 1)
  }

  /** The rendered indices are a strictly increasing subsequence of 0..n-1, holding
      exactly the entries that carry a segment. */
  lemma {:induction false} RenderedIndicesExact<T>(plan: seq<Option<T>>, n: nat)
    requires n <= |plan|
    ensures StrictlyIncreasing(RenderedIndices(plan, n))
    ensures forall k :: 0 <= k < |RenderedIndices(plan, n)| ==>
      RenderedIndices(plan, n)[k] < n && plan[RenderedIndices(plan, n)[k]].Some?
    ensures forall i :: 0 <= i < n && plan[i].Some? ==> i in RenderedIndices(plan, n)
  {
    if n > 0 {
      RenderedIndicesExact(plan, n - 1);
      var r := RenderedIndices(plan, n - 1);
      if plan[n - 1].Some? {
        assert RenderedIndices(plan, n) == r + [n - 1];
      } else {
        assert RenderedIndices(plan, n) == r;
      }
    }
  }

  /** The present segments are the plan's entries at the rendered indices, in order. */
  lemma {:induction false} PresentAtIndices<T>(plan: seq<Option<T>>, n: nat)
    requires n <= |plan|
    ensures |Present(plan, n)| == |RenderedIndices(plan, n)|
    ensures forall k :: 0 <= k < |Present(plan, n)| ==>
      RenderedIndices(plan, n)[k] < |plan| && plan[RenderedIndices(plan, n)[k]] == Some(Present(plan, n)[k])
  {
    if n > 0 {
      PresentAtIndices(plan, n - 1);
      var r := RenderedIndices(plan, n - 1);
      var x := Present(plan, n - 1);
      if plan[n - 1].Some? {
        assert RenderedIndices(plan, n) == r + [n - 1];
        assert Present(plan, n) == x + [plan[n - 1].value];
      } else {
        assert RenderedIndices(plan, n) == r;
        assert Present(plan, n) == x;
      }
    }
  }

  /** Distinct indices give distinct segment names. */
  lemma SegmentNameInjective(i: nat, j: nat)
    requires i != j
    ensures SegmentName(i) != SegmentName(j)
  {
    SegmentKey(i);
    SegmentKey(j);
  }

  /** `tmp/videos/` holds one file per rendered post, named by its index. */
  lemma {:induction false} SegmentFilesHave(plan: seq<Option<Segment>>, n: nat)
    requires n <= |plan|
    ensures forall i :: 0 <= i < n && plan[i].Some? ==>
      SegmentName(i) in SegmentFiles(plan, n)
      && SegmentFiles(plan, n)[SegmentName(i)] == File(Rendered(plan[i].value))
  {
    if n > 0 {
      SegmentFilesHave(plan, n - 1);
      if plan[n - 1].Some? {
        forall i | 0 <= i < n - 1 ensures SegmentName(i) != SegmentName(n - 1) {
          SegmentNameInjective(i, n - 1);
        }
      }
    }
  }

  /** `tmp/videos/` holds nothing but the files of rendered posts. */
  lemma {:induction false} SegmentFilesOnly(plan: seq<Option<Segment>>, n: nat)
    requires n <= |plan|
    ensures forall name :: name in SegmentFiles(plan, n) ==>
      exists i :: 0 <= i < n && plan[i].Some? && name == SegmentName(i)
  {
    if n > 0 {
      SegmentFilesOnly(plan, n - 1);
    }
  }

  lemma SegmentFilesExact(plan: seq<Option<Segment>>, n: nat)
    requires n <= |plan|
    ensures forall i :: 0 <= i < n && plan[i].Some? ==>
      SegmentName(i) in SegmentFiles(plan, n)
      && SegmentFiles(plan, n)[SegmentName(i)] == File(Rendered(plan[i].value))
    ensures forall name :: name in SegmentFiles(plan, n) ==>
      exists i :: 0 <= i < n && plan[i].Some? && name == SegmentName(i)
  {
    SegmentFilesHave(plan, n);
    SegmentFilesOnly(plan, n);
  }

  /** The paths of the rendered segments, in processing order. */
  function SegmentPaths<T>(plan: seq<Option<T>>): (r: seq<string>) {
    var indices := RenderedIndices(plan, |plan|);
    seq(|indices|, k requires 0 <= k < |indices| => JoinVideos(SegmentName(indices[k])))
  }

  /** Segment paths are keyed by their indices, so they ascend strictly. */
  lemma SegmentPathsAscend<T>(plan: seq<Option<T>>)
    ensures StrictlyAscending(SegmentPaths(plan), PathKey)
  {
    var r := RenderedIndices(plan, |plan|);
    var q := SegmentPaths(plan);
    RenderedIndicesExact(plan, |plan|);
    forall k | 0 <= k < |r| ensures PathKey(q[k]) == r[k] {
      SegmentKey(r[k]);
    }
  }

  /** Segment files are named by distinct indices, so no two share a stem. */
  lemma SegmentStemsDistinct(plan: seq<Option<Segment>>)
    ensures DistinctStems(SegmentFiles(plan, |plan|))
  {
    var m := SegmentFiles(plan, |plan|);
    SegmentFilesOnly(plan, |plan|);
    forall n, n' | n in m && n' in m && n != n'
      ensures PathKey(JoinVideos(n)) != PathKey(JoinVideos(n'))
    {
      var i :| 0 <= i < |plan| && plan[i].Some? && n == SegmentName(i);
      var j :| 0 <= j < |plan| && plan[j].Some? && n' == SegmentName(j);
      SegmentKey(i);
      SegmentKey(j);
    }
  }

  /** The segment paths name exactly the files of `tmp/videos/`. */
  lemma SegmentPathsMembers(plan: seq<Option<Segment>>)
    ensures forall p :: p in SegmentPaths(plan) <==>
      exists n :: n in SegmentFiles(plan, |plan|) && p == JoinVideos(n)
  {
    SegmentPathsListed(plan);
    ListedSegmentPaths(plan);
  }

  lemma SegmentPathsListed(plan: seq<Option<Segment>>)
    ensures forall p :: p in SegmentPaths(plan) ==>
      exists n :: n in SegmentFiles(plan, |plan|) && p == JoinVideos(n)
  {
    var m := SegmentFiles(plan, |plan|);
    var r := RenderedIndices(plan, |plan|);
    var q := SegmentPaths(plan);
    RenderedIndicesExact(plan, |plan|);
    SegmentFilesHave(plan, |plan|);
    forall k | 0 <= k < |q| ensures SegmentName(r[k]) in m && q[k] == JoinVideos(SegmentName(r[k])) {
    }
  }

  lemma ListedSegmentPaths(plan: seq<Option<Segment>>)
    ensures forall n :: n in SegmentFiles(plan, |plan|) ==> JoinVideos(n) in SegmentPaths(plan)
  {
    var m := SegmentFiles(plan, |plan|);
    var r := RenderedIndices(plan, |plan|);
    var q := SegmentPaths(plan);
    RenderedIndicesExact(plan, |plan|);
    SegmentFilesOnly(plan, |plan|);
    forall n | n in m ensures JoinVideos(n) in q {
      var i :| 0 <= i < |plan| && plan[i].Some? && n == SegmentName(i);
      var k :| 0 <= k < |r| && r[k] == i;
      assert q[k] == JoinVideos(n);
    }
  }

  /** Loading the path of a segment file gives back its segment. */
  lemma VideoAtSegment(m: map<string, Entry>, i: nat, segment: Segment)
    requires SegmentName(i) in m && m[SegmentName(i)] == File(Rendered(segment))
    ensures VideoAt(m, JoinVideos(SegmentName(i))) == segment
  {
    SegmentKey(i);
    AfterLastOfJoin(VideosDir, '/', SegmentName(i));
  }

  /** Loading each segment path gives back the segment of that post. */
  lemma SegmentPathsLoad(plan: seq<Option<Segment>>)
    ensures Concatenation(SegmentFiles(plan, |plan|), SegmentPaths(plan)) == Present(plan, |plan|)
  {
    var m := SegmentFiles(plan, |plan|);
    var r := RenderedIndices(plan, |plan|);
    var q := SegmentPaths(plan);
    var present := Present(plan, |plan|);
    RenderedIndicesExact(plan, |plan|);
    SegmentFilesHave(plan, |plan|);
    PresentAtIndices(plan, |plan|);
    var c := Concatenation(m, q);
    forall k | 0 <= k < |r| ensures c[k] == present[k] {
      assert plan[r[k]] == Some(present[k]);
      VideoAtSegment(m, r[k], present[k]);
    }
  }

  /** Whatever order `os.listdir` returns, sorting by integer stem puts the
      segments in the order their posts were processed, leaving out the posts
      that had no narration. */
  lemma ConcatenationInOrder(plan: seq<Option<Segment>>, order: seq<string>)
    requires SortedListingOf(SegmentFiles(plan, |plan|), order)
    ensures order == SegmentPaths(plan)
    ensures Concatenation(SegmentFiles(plan, |plan|), order) == Present(plan, |plan|)
  {
    SegmentPathsAscend(plan);
    SegmentStemsDistinct(plan);
    SegmentPathsMembers(plan);
    StrictOrderUnique(order, SegmentPaths(plan), PathKey);
    SegmentPathsLoad(plan);
  }

  /** Whether the run got to the end, stopped short of `concat_clips` with no
      segment written, or an exception from `tweet_talk` ended it at a post. */
  datatype RunOutcome = Completed(rendered: seq<nat>) | NothingToJoin | Aborted(item: nat)

  /** `tmp/` has no directory where the pipeline writes a file. */
  predicate ScratchWritable(tmp: map<string, Entry>) {
    (BoardName !in tmp || tmp[BoardName].File?) && (NarrationName !in tmp || tmp[NarrationName].File?)
  }

  /** Which posts make `tweet_talk` raise. */
  function Raising(items: seq<Tweet>, e: Engine): (r: seq<bool>)
    ensures |r| == |items|
  {
    if items == [] then [] else Raising(items[..|items| - 1], e) + [ItemTalk(items[|items| - 1], e).Raised?]
  }

  lemma {:induction false} RaisingAt(items: seq<Tweet>, e: Engine, k: nat)
    requires k < |items|
    ensures Raising(items, e)[k] == ItemTalk(items[k], e).Raised?
  {
    if k < |items| - 1 {
      RaisingAt(items[..|items| - 1], e, k);
    }
  }

  /** `i` is the first position holding `true`. */
  predicate FirstTrue(s: seq<bool>, i: nat) {
    i < |s| && s[i] && forall j :: 0 <= j < i ==> !s[j]
  }

  /** The caption board of a post: `load_tweet_image(author, full_text)`. */
  function BoardOf(t: Tweet, wrap: (string, nat) -> seq<string>): Entry {
    File(Board(Layout(wrap(CaptionText(t.author, t.fullText), TextWidth))))
  }

  /** The files written while one post is processed do not survive `clear_tmp`. */
  lemma ScratchCleared(base: map<string, Entry>, board: Content, audio: Content)
    requires NoFiles(base) && BoardName !in base && NarrationName !in base
    ensures DirsOnly(base[BoardName := File(board)]) == base
    ensures DirsOnly(base[BoardName := File(board)][NarrationName := File(audio)]) == base
  {
    ClearForgetsFile(base[BoardName := File(board)], NarrationName, audio);
    ClearForgetsFile(base, BoardName, board);
  }

  /** A directory of files only is empty once cleared. */
  lemma ClearAllFiles(m: map<string, Entry>)
    requires forall n :: n in m ==> m[n].File?
    ensures DirsOnly(m) == map[]
  {
  }

  /** `tmp/videos/` stays empty exactly while no post has a segment. */
  lemma {:induction false} NoSegmentsNoFiles(plan: seq<Option<Segment>>, n: nat)
    requires n <= |plan|
    ensures SegmentFiles(plan, n) == map[] <==> Present(plan, n) == []
  {
    if n > 0 {
      NoSegmentsNoFiles(plan, n - 1);
      if plan[n - 1].Some? {
        assert SegmentName(n - 1) in SegmentFiles(plan, n);
      }
    }
  }

  /** The segment files carry the names `concat_clips` can sort. */
  lemma SegmentFilesSortable(plan: seq<Option<Segment>>, n: nat)
    requires n <= |plan|
    ensures SegmentNames(SegmentFiles(plan, n))
    ensures forall name :: name in SegmentFiles(plan, n) ==>
      SegmentFiles(plan, n)[name].File? && SegmentFiles(plan, n)[name].content.Rendered?
  {
    SegmentFilesExact(plan, n);
    forall name | name in SegmentFiles(plan, n)
      ensures '/' !in name && SortKey(JoinVideos(name)).Some?
      ensures SegmentFiles(plan, n)[name].File? && SegmentFiles(plan, n)[name].content.Rendered?
    {
      var i :| 0 <= i < n && plan[i].Some? && name == SegmentName(i);
      SegmentKey(i);
    }
  }

  class Disk {
    var tmp: map<string, Entry>       // the entries of tmp/
    var videos: map<string, Entry>    // the entries of tmp/videos/
    var output: Option<seq<Segment>>  // tweet_video.mp4

    constructor (tmp: map<string, Entry>, videos: map<string, Entry>, output: Option<seq<Segment>>)
      ensures this.tmp == tmp && this.videos == videos && this.output == output
    {
      this.tmp := tmp;
      this.videos := videos;
      this.output := output;
    }

    /** `clear_tmp`. */
    method ClearTmp()
      modifies this`tmp
      ensures tmp == DirsOnly(old(tmp))
    {
      tmp := RemoveFiles(tmp);
    }

    /** `clear_videos`. */
    method ClearVideos()
      modifies this`videos
      ensures videos == DirsOnly(old(videos))
    {
      videos := RemoveFiles(videos);
    }

    /** `os.remove('tweet_video.mp4')`, an absent file being no error. */
    method RemoveOutput()
      modifies this`output
      ensures output == None
    {
      output := None;
    }

    /** `create_clip(index, images, clips, duration)`: no file is written when the
        narration cannot be opened. */
    method CreateClip(index: nat, images: seq<string>, clips: seq<string>, duration: real)
      requires |images| > 0
      modifies this`videos
      ensures NarrationAudio(tmp).None? ==> videos == old(videos)
      ensures NarrationAudio(tmp).Some? ==>
        videos == old(videos)[SegmentName(index) :=
          File(Rendered(Render(images, clips, duration, NarrationAudio(tmp).value)))]
    {
      var audio := NarrationAudio(tmp);
      if audio.None? {
        return;
      }
      var segment := Render(images, clips, duration, audio.value);
      videos := videos[SegmentName(index) := File(Rendered(segment))];
    }

    /** `concat_clips`, on a non-empty directory of rendered segments whose names have
        integer stems: on an empty directory, a name without an integer stem, or an entry
        that `VideoFileClip` cannot open, the program raises. */
    method ConcatClips() returns (order: seq<string>)
      requires videos != map[]
      requires SegmentNames(videos)
      requires forall n :: n in videos ==> videos[n].File? && videos[n].content.Rendered?
      modifies this`output
      ensures SortedListingOf(videos, order)
      ensures output == Some(Concatenation(videos, order))
    {
      order := SortedListing(videos);
      var movie := Concatenation(videos, order);
      output := Some(movie);
    }

    /** `load_tweet_image(author, tweet)`: the caption drawn on the board, saved as `tmp/board.jpeg`. */
    method LoadTweetImage(author: string, tweet: string, wrap: (string, nat) -> seq<string>)
      modifies this`tmp
      ensures tmp == old(tmp)[BoardName := File(Board(Layout(wrap(CaptionText(author, tweet), TextWidth))))]
    {
      var drawn := DrawLines(wrap(CaptionText(author, tweet), TextWidth));
      tmp := tmp[BoardName := File(Board(drawn))];
    }

    /** `tweet_talk(author, tweet, lang, index)`: `tmp/res.mp3` is exported only when
        the narration is spoken; the prior narration is whatever `tmp/res.mp3` holds. */
    method Narrate(author: string, tweet: string, lang: string, index: int, e: Engine) returns (talk: Talk)
      modifies this`tmp
      ensures talk == TweetTalk(e, author, tweet, lang, index, NarrationAudio(old(tmp)))
      ensures talk.Spoken? ==> tmp == old(tmp)[NarrationName := File(Audio(talk.ms))]
      ensures !talk.Spoken? ==> tmp == old(tmp)
    {
      talk := TweetTalk(e, author, tweet, lang, index, NarrationAudio(tmp));
      if talk.Spoken? {
        tmp := tmp[NarrationName := File(Audio(talk.ms))];
      }
    }

    /** One pass of the loop of `read_timeline` over post `items[index]`: fetch its
        media, draw its board, narrate it, render it when the narration is not
        empty, and clear `tmp/`. */
    method ProcessPost(items: seq<Tweet>, index: nat, e: Engine, wrap: (string, nat) -> seq<string>)
        returns (raised: bool)
      requires index < |items|
      requires NoFiles(tmp) && BoardName !in tmp && NarrationName !in tmp
      modifies this`tmp, this`videos
      ensures raised == Raising(items, e)[index]
      ensures raised ==> tmp == old(tmp)[BoardName := BoardOf(items[index], wrap)] && videos == old(videos)
      ensures !raised ==> tmp == old(tmp)
      ensures !raised && Plan(items, e)[index].Some? ==>
        videos == old(videos)[SegmentName(index) := File(Rendered(Plan(items, e)[index].value))]
      ensures !raised && Plan(items, e)[index].None? ==> videos == old(videos)
    {
      var t := items[index];
      RaisingAt(items, e, index);
      PlanAt(items, e, index);
      var images, clips := DownloadMedia(t.media);
      ghost var base := tmp;
      LoadTweetImage(t.author, t.fullText, wrap);
      ghost var board := tmp[BoardName];
      IndexZeroNeverChains(e, t.author, Clean(t.fullText), t.lang, NarrationAudio(tmp));
      var talk := Narrate(t.author, Clean(t.fullText), t.lang, 0, e);
      assert talk == ItemTalk(t, e);
      if talk.Raised? {
        return true;
      }
      ScratchCleared(base, board.content, Audio(if talk.Spoken? then talk.ms else 0));
      var duration := Seconds(talk);
      if duration > 0.0 {
        CreateClip(index, if images != [] then images else [BoardPath], clips, duration);
      }
      ClearTmp();
      raised := false;
    }

    /** The loop of `read_timeline` over `items`, from empty scratch directories;
        `None` when it gets through every post, `Some(i)` when post `i` raises. */
    method ProcessPosts(items: seq<Tweet>, e: Engine, wrap: (string, nat) -> seq<string>)
        returns (stopped: Option<nat>)
      requires NoFiles(tmp) && BoardName !in tmp && NarrationName !in tmp
      requires videos == map[]
      modifies this`tmp, this`videos
      ensures stopped.Some? ==> FirstTrue(Raising(items, e), stopped.value)
      ensures stopped.Some? ==>
        && tmp == old(tmp)[BoardName := BoardOf(items[stopped.value], wrap)]
        && videos == SegmentFiles(Plan(items, e), stopped.value)
      ensures stopped.None? ==>
        && true !in Raising(items, e)
        && tmp == old(tmp)
        && videos == SegmentFiles(Plan(items, e), |items|)
    {
      ghost var raising := Raising(items, e);
      ghost var plan := Plan(items, e);
      var i := 0;
      while i < |items|
        invariant 0 <= i <= |items|
        invariant tmp == old(tmp)
        invariant videos == SegmentFiles(plan, i)
        invariant forall j :: 0 <= j < i ==> !raising[j]
      {
        var raised := ProcessPost(items, i, e, wrap);
        if raised {
          return Some(i);
        }
        i := i + 1;
      }
      assert forall j :: 0 <= j < |raising| ==> !raising[j];
      return None;
    }

    /** The end of `read_timeline`: `concat_clips` and `clear_videos`, once every
        post has been processed. `concat_clips` raises when no segment was written. */
    method FinishRun(items: seq<Tweet>, e: Engine) returns (outcome: RunOutcome)
      requires videos == SegmentFiles(Plan(items, e), |items|)
      requires output == None
      modifies this`videos, this`output
      ensures !outcome.Aborted? && videos == map[]
      ensures outcome.NothingToJoin? ==> output == None && Present(Plan(items, e), |items|) == []
      ensures outcome.Completed? ==>
        && outcome.rendered == RenderedIndices(Plan(items, e), |items|)
        && Present(Plan(items, e), |items|) != []
        && output == Some(Present(Plan(items, e), |items|))
    {
      var plan := Plan(items, e);
      NoSegmentsNoFiles(plan, |items|);
      if videos == map[] {
        return NothingToJoin;
      }
      SegmentFilesSortable(plan, |items|);
      var order := ConcatClips();
      ConcatenationInOrder(plan, order);
      ClearVideos();
      ClearAllFiles(SegmentFiles(plan, |items|));
      outcome := Completed(RenderedIndices(plan, |items|));
    }

    /** `read_timeline` on the statuses `home_timeline` returned, newest first;
        `wrap` is `textwrap.wrap`, applied to the caption and `TextWidth`. */
    method ReadTimeline(timeline: seq<Tweet>, e: Engine, wrap: (string, nat) -> seq<string>)
        returns (outcome: RunOutcome)
      requires ScratchWritable(tmp)
      requires forall n :: n in videos ==> videos[n].File?
      modifies this
      ensures outcome.Aborted? ==> FirstTrue(Raising(Reverse(timeline), e), outcome.item)
      ensures !outcome.Aborted? ==> true !in Raising(Reverse(timeline), e)
      ensures outcome.Aborted? ==>
        && tmp == DirsOnly(old(tmp))[BoardName := BoardOf(Reverse(timeline)[outcome.item], wrap)]
        && videos == SegmentFiles(Plan(Reverse(timeline), e), outcome.item)
        && output == None
      ensures !outcome.Aborted? ==> tmp == DirsOnly(old(tmp)) && videos == map[]
      ensures outcome.NothingToJoin? ==> output == None && Present(Plan(Reverse(timeline), e), |timeline|) == []
      ensures outcome.Completed? ==>
        && outcome.rendered == RenderedIndices(Plan(Reverse(timeline), e), |timeline|)
        && Present(Plan(Reverse(timeline), e), |timeline|) != []
        && output == Some(Present(Plan(Reverse(timeline), e), |timeline|))
    {
      var items := Reverse(timeline);
      ClearTmp();
      ClearVideos();
      RemoveOutput();
      ClearingIsIdempotent(old(tmp));
      ClearAllFiles(old(videos));
      var stopped := ProcessPosts(items, e, wrap);
      if stopped.Some? {
        return Aborted(stopped.value);
      }
      outcome := FinishRun(items, e);
    }
  }

  /** Every entry of `tmp/videos/` is a plain name with an integer stem: otherwise
      `int` raises while sorting. */
  predicate SegmentNames(m: map<string, Entry>) {
    forall n :: n in m ==> '/' !in n && SortKey(JoinVideos(n)).Some?
  }

  /** No two entries of `tmp/videos/` share an integer stem. */
  predicate DistinctStems(m: map<string, Entry>) {
    forall n, n' :: n in m && n' in m && n != n' ==> PathKey(JoinVideos(n)) != PathKey(JoinVideos(n'))
  }

  /** `VideoFileClip(path)` on a path into `tmp/videos/`; the empty segment stands for
      an entry it cannot open, which `ConcatClips` excludes. */
  function VideoAt(m: map<string, Entry>, path: string): Segment {
    var name := AfterLast(path, '/');
    if name in m && m[name].File? && m[name].content.Rendered? then m[name].content.segment
    else Segment([], 0, [])
  }

  /** `concatenate_videoclips` over the clips loaded from `paths`, in that order. */
  function Concatenation(m: map<string, Entry>, paths: seq<string>): (r: seq<Segment>)
    ensures |r| == |paths| && forall k :: 0 <= k < |paths| ==> r[k] == VideoAt(m, paths[k])
  {
    seq(|paths|, k requires 0 <= k < |paths| => VideoAt(m, paths[k]))
  }

  /** `order` lists every entry of `m` once, as a path into `tmp/videos/`, in
      ascending order of integer stem, strictly so when no two stems agree. */
  ghost predicate SortedListingOf(m: map<string, Entry>, order: seq<string>) {
    && |order| == |m|
    && (forall p :: p in order <==> exists n :: n in m && p == JoinVideos(n))
    && (forall a, b :: 0 <= a < b < |order| ==> order[a] != order[b])
    && Ascending(order, PathKey)
    && (DistinctStems(m) ==> StrictlyAscending(order, PathKey))
  }

  /** The listing of `tmp/videos/`, joined onto the directory and sorted by integer stem. */
  method SortedListing(m: map<string, Entry>) returns (order: seq<string>)
    requires forall n :: n in m ==> '/' !in n
    ensures SortedListingOf(m, order)
  {
    var names := ListDir(m);
    var paths := seq(|names|, k requires 0 <= k < |names| => JoinVideos(names[k]));
    JoinedListing(m, names, paths);
    order := SortByKey(paths, PathKey);
    Rearranged(paths, order);
    if DistinctStems(m) {
      StemsOfListing(m, order);
      DistinctKeysStrict(order, PathKey);
    }
  }

  /** Distinct stems make distinct paths of a listing carry distinct keys. */
  lemma StemsOfListing(m: map<string, Entry>, order: seq<string>)
    requires DistinctStems(m)
    requires forall p :: p in order ==> exists n :: n in m && p == JoinVideos(n)
    requires forall a, b :: 0 <= a < b < |order| ==> order[a] != order[b]
    ensures forall a, b :: 0 <= a < b < |order| ==> PathKey(order[a]) != PathKey(order[b])
  {
    forall a, b | 0 <= a < b < |order| ensures PathKey(order[a]) != PathKey(order[b]) {
      assert order[a] in order && order[b] in order;
      var n :| n in m && order[a] == JoinVideos(n);
      var n' :| n' in m && order[b] == JoinVideos(n');
    }
  }

  /** The paths `concat_clips` builds from a listing of `tmp/videos/`. */
  lemma JoinedListing(m: map<string, Entry>, names: seq<string>, paths: seq<string>)
    requires forall n :: n in m ==> '/' !in n
    requires forall n :: n in names <==> n in m
    requires forall a, b :: 0 <= a < b < |names| ==> names[a] != names[b]
    requires |paths| == |names| && forall k :: 0 <= k < |names| ==> paths[k] == JoinVideos(names[k])
    ensures forall p :: p in paths <==> exists n :: n in m && p == JoinVideos(n)
    ensures forall a, b :: 0 <= a < b < |paths| ==> paths[a] != paths[b]
  {
    forall a, b | 0 <= a < b < |paths| ensures paths[a] != paths[b] {
      AfterLastOfJoin(VideosDir, '/', names[a]);
      AfterLastOfJoin(VideosDir, '/', names[b]);
    }
    forall p | exists n :: n in m && p == JoinVideos(n)
      ensures p in paths
    {
      var n :| n in m && p == JoinVideos(n);
      var j :| 0 <= j < |names| && names[j] == n;
      assert paths[j] == p;
    }
  }

  /** A permutation of a sequence without repeats has the same members and no repeats. */
  lemma Rearranged(paths: seq<string>, order: seq<string>)
    requires multiset(order) == multiset(paths)
    requires forall a, b :: 0 <= a < b < |paths| ==> paths[a] != paths[b]
    ensures |order| == |paths|
    ensures forall p :: p in order <==> p in paths
    ensures forall a, b :: 0 <= a < b < |order| ==> order[a] != order[b]
  {
    assert |multiset(order)| == |multiset(paths)|;
    forall p ensures p in order <==> p in paths {
      assert p in order <==> p in multiset(order);
      assert p in paths <==> p in multiset(paths);
    }
    forall a, b | 0 <= a < b < |order| ensures order[a] != order[b] {
      DistinctMultiplicity(paths, order[a]);
      if order[a] == order[b] {
        MultiplicityOfTwo(order, a, b);
      }
    }
  }

  /** A sequence without repeats holds each value at most once. */
  lemma {:induction false} DistinctMultiplicity(s: seq<string>, x: string)
    requires forall a, b :: 0 <= a < b < |s| ==> s[a] != s[b]
    ensures multiset(s)[x] <= 1
  {
    if s != [] {
      var init := s[..|s| - 1];
      assert s == init + [s[|s| - 1]];
      DistinctMultiplicity(init, x);
      if x == s[|s| - 1] {
        assert x !in init;
      }
    }
  }

  /** Two positions holding the same value make it occur twice. */
  lemma MultiplicityOfTwo(s: seq<string>, a: nat, b: nat)
    requires a < b < |s| && s[a] == s[b]
    ensures multiset(s)[s[a]] >= 2
  {
    assert s == s[..a] + [s[a]] + s[a + 1..b] + [s[b]] + s[b + 1..];
  }
}
