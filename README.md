# TweetTalker, modelled in Dafny

TweetTalker turns a Twitter home timeline into one narrated video. Its script
`tweet_loader.py` does the following:

- fetches the timeline and processes it oldest post first;
- for every post:
  - downloads the photos and the best-bitrate variant of every video;
  - draws the author and the text onto a board image;
  - narrates the cleaned text with a text-to-speech engine;
  - when the narration is not empty, renders a per-post segment into `tmp/videos/<index>.mp4`: one slide per image, laid under the narration, followed by the post's own videos;
  - clears the scratch directory `tmp/`;
- finally sorts the segments by the integer in their file names, concatenates them into `tweet_video.mp4`, and clears `tmp/videos/`.

This project models the decision logic under the library calls. Media, audio and video become abstract values:

- an audio track is its length in milliseconds;
- a clip is its path;
- a rendered segment is its slides, narration length and videos;
- a directory is a map from entry name to `File(content)` or `Dir`.

The modules follow the structure of the program:

| module | what it models |
|---|---|
| `Wrappers` | `Option`, for a missing key or a `None` |
| `Strings` | `rsplit(c, 1)[-1]`, `split(c)[0]`, `str(n)` and `int(s)` on the strings the pipeline builds |
| `TextClean` | the narration text `re.sub(r'http\S+', '', text).replace('#', '')`, with the one pattern written out by hand |
| `MediaFetcher` | `download_media`: variant selection, skipped attachments, suffixes, download paths and their order |
| `Narration` | `tweet_talk`, with gTTS and pydub as an oracle `Engine` (accepted languages, savable texts, decoded lengths) |
| `Caption` | the drawing loop of `load_tweet_image` (wrapped lines laid out top to bottom) |
| `Segments` | the layout `create_clip` assembles: slides of equal length, then the videos |
| `Ordering` | the sort key of `concat_clips` and the sort itself |
| `Pipeline` | the class `Disk`, whose fields are `tmp/`, `tmp/videos/` and `tweet_video.mp4` and whose methods update them: the clearing loops, `create_clip`, `concat_clips`, `load_tweet_image`, the file side of `tweet_talk`, and the loop of `read_timeline` |

The whole run is specified against two functions:

- `Pipeline.Plan`, which gives the segment each post contributes, or none;
- `Pipeline.Raising`, which says which posts make `tweet_talk` raise.

`Pipeline.Disk.ReadTimeline` states the new state for each way the run can end:

- **Completed**: the output video is the present segments of the plan, in processing order. That order holds whatever order the directory listing returns. The rendered indices are a strictly increasing subsequence of the post indices, and may have gaps. In the model a gap is a post whose narration is not spoken: `tweet_talk` always leaves a readable `tmp/res.mp3` for a spoken post, so `CreateClip`'s branch with no readable narration is never taken inside a run.
- **Aborted at post i**: post i is the first post that raises. The segments of the posts before it are left in `tmp/videos/`, and the board of post i is left in `tmp/` beside its subdirectories (the program also leaves the downloads and audio intermediates of post i there, which the model does not represent).
- **NothingToJoin**: no post had a segment.

## Model

| member | source | states |
|---|---|---|
| `Strings.AfterLast` | tweet_loader.py:188 | the result is the suffix of `s` after the last `c`, holds no `c`, and is all of `s` when `c` does not occur |
| `Strings.BeforeFirst` | tweet_loader.py:189 | the result is the prefix of `s` before the first `c`, holds no `c`, and is all of `s` when `c` does not occur |
| `Strings.AfterLastOfJoin` | tweet_loader.py:108-109 | the part after the last separator of `dir + c + name`, for a name without `c`, is the name itself |
| `Strings.BeforeFirstOfJoin` | tweet_loader.py:109 | the part before the first `c` of `stem + c + rest`, for a stem without `c`, is the stem |
| `Strings.NatToString` | tweet_loader.py:190 | `str(n)` is a non-empty run of decimal digits without a leading zero |
| `Strings.ParseNat` | tweet_loader.py:109 | `int(s)` succeeds exactly on non-empty runs of decimal digits |
| `Strings.ParseNatToString` | tweet_loader.py:109 | `int(str(n)) == n` |
| `Strings.NatToStringInjective` | tweet_loader.py:104 | distinct indices have distinct decimal names |
| `TextClean.StripUrls` | tweet_loader.py:51 | the definition of `re.sub(r'http\S+', '', s)`: leftmost match removed, search resumed after it. Fixed on every input by `StripUrlsWord` and `StripUrlsSplitsAtSpace` |
| `TextClean.Clean` | tweet_loader.py:51 | the definition of line 51, `RemoveHashes` after `StripUrls`. Characterised by `CleanProperties` |
| `TextClean.IsSpace` | tweet_loader.py:51 | the definition of Python's `\s` on `str` patterns: the characters for which `str.isspace()` holds. `NonSpaceRun` and `StripUrlsSplitsAtSpace` are stated over it |
| `TextClean.UrlAt` | tweet_loader.py:51 | the definition of a match of `http\S+` at position i: the four letters `http` and at least one non-whitespace character after them. `StripUrlsIdentity`, `StripUrlsLeavesNoUrl` and `FirstUrl` are stated over it |
| `TextClean.NonSpaceRun` | tweet_loader.py:51 | `\S+` consumes the longest run of non-whitespace: every character before the returned length is non-space, and the next is whitespace or the end |
| `TextClean.SkipNonSpace` | tweet_loader.py:51 | what follows a match is empty or starts with whitespace, and is no longer than the input |
| `TextClean.RemoveHashes` | tweet_loader.py:51 | `replace('#', '')` leaves no `#` |
| `TextClean.RemoveHashesKeepsOthers` | tweet_loader.py:51 | every character other than `#` keeps its number of occurrences: the result is the input with the `#` characters taken out |
| `TextClean.RemoveHashesLength` | tweet_loader.py:51 | removing `#` never lengthens the text, shortens it exactly when a `#` occurs, and leaves a `#`-free text unchanged |
| `TextClean.StripUrlsShortens` | tweet_loader.py:51 | `re.sub(r'http\S+', '', s)` never lengthens `s`, and any change shortens it |
| `TextClean.StripUrlsIdentity` | tweet_loader.py:51 | a text with no match of `http\S+` comes out unchanged |
| `TextClean.StripUrlsHead` | tweet_loader.py:51 | the output starts with whitespace left after a removed match, or with the first input character when no match starts there |
| `TextClean.StripUrlsPrefix` | tweet_loader.py:51 | a whitespace-free prefix of the output is copied from the input |
| `TextClean.StripUrlsLeavesNoUrl` | tweet_loader.py:51 | no match of `http\S+` is left after substitution, including one formed by joining the text around a removed link |
| `TextClean.NonSpaceRunStops` | tweet_loader.py:51 | a `\S+` run ends at the first whitespace character: text after it does not change the run |
| `TextClean.FirstUrl` | tweet_loader.py:51 | the position of the first match of `http\S+`, or the length when there is none: no match starts earlier |
| `TextClean.StripUrlsWord` | tweet_loader.py:51 | within a whitespace-free word, the text before the first match is kept and everything from the match to the end of the word is removed |
| `TextClean.StripUrlsSplitsAtSpace` | tweet_loader.py:51 | a match never reaches across whitespace: the text on each side of a whitespace character is cleaned on its own, and the whitespace is kept. With `StripUrlsWord` this fixes the result on every input |
| `TextClean.CleanProperties` | tweet_loader.py:51 | the cleaned text has no `#`, is no longer than the input, and equals the input exactly when the input has neither a link match nor a `#` (both directions) |
| `TextClean.CleanPlainText` | tweet_loader.py:51 | a text without `http` and without `#` is unchanged |
| `MediaFetcher.Rate` | tweet_loader.py:183 | the definition of the rate of a variant, 0 without `bitrate`. Used by `BestIsFirstGreatest` |
| `MediaFetcher.ChosenUrl` | tweet_loader.py:187 | the definition of the URL fetched for a video: the loop's URL when it is truthy. Characterised by `ChosenIsFirstGreatest` |
| `MediaFetcher.VideoSuffix` | tweet_loader.py:188-189 | the definition of the video suffix, `AfterLast` of `.` then `BeforeFirst` of `?`. Characterised by those two functions' contracts and `ClipsInAttachmentOrder` |
| `MediaFetcher.ImageSuffix` | tweet_loader.py:194 | the definition of the image suffix, `AfterLast` of `.` only. Characterised by `AfterLast` and `ImagesInAttachmentOrder` |
| `MediaFetcher.MediaPath` | tweet_loader.py:190 | the definition of `'tmp/' + str(i) + '.' + suffix`. Characterised by `MediaPathPosition` |
| `MediaFetcher.BestUpTo` | tweet_loader.py:181-186 | the definition of the state `(bit_rate, video_url)` of the inner loop after the first n variants. Characterised by `BestIsFirstGreatest`, and the loop invariant of `SelectVariant` |
| `MediaFetcher.BestIsFirstGreatest` | tweet_loader.py:181-186 | the inner loop keeps the first variant of strictly greatest positive rate, and keeps none (rate 0) exactly when no variant has a positive rate. A variant without `bitrate` counts as 0 |
| `MediaFetcher.SelectVariant` | tweet_loader.py:181-186 | the loop over the variants computes the `(bit_rate, video_url)` that `BestIsFirstGreatest` characterises |
| `MediaFetcher.FirstGreatestUnique` | tweet_loader.py:184 | at most one variant is the first of greatest rate, because the comparison is strict |
| `MediaFetcher.ChosenIsFirstGreatest` | tweet_loader.py:181-187 | a video is fetched exactly when its first greatest-rate variant has a non-empty URL (`if video_url:` is truthiness), and then from that URL. With no positive rate it is skipped |
| `MediaFetcher.PicksHighestBitrate` | tweet_loader.py:181-187 | with rates 200, 500 and 350, the second variant is fetched |
| `MediaFetcher.MediaPathPosition` | tweet_loader.py:190 | the attachment position can be read back from `'tmp/' + str(i) + '.' + suffix` |
| `MediaFetcher.PhotoPositionsExact` | tweet_loader.py:193-198 | the photo positions are exactly the photos among the attachments, strictly increasing |
| `MediaFetcher.ImagesInAttachmentOrder` | tweet_loader.py:193-198 | the images are one path per photo, in attachment order. Each is `tmp/<position>.<text after the last '.' of media_url>`, with no query stripping |
| `MediaFetcher.ClipPositionsExact` | tweet_loader.py:180-192 | the clip positions are exactly the videos with a usable variant, strictly increasing |
| `MediaFetcher.ClipsInAttachmentOrder` | tweet_loader.py:180-192 | the clips are one path per fetched video, in attachment order. Each is `tmp/<position>.<suffix>`, the suffix being the text after the last `.` of the chosen URL, cut at the first `?` |
| `MediaFetcher.Images` | tweet_loader.py:175-199 | the definition of the image list `download_media` returns: empty without media, otherwise one entry per photo. Characterised by `ImagesInAttachmentOrder` and the ensures of `DownloadMedia` |
| `MediaFetcher.Clips` | tweet_loader.py:175-199 | the definition of the clip list `download_media` returns: empty without media, otherwise one entry per fetched video. Characterised by `ClipsInAttachmentOrder` and the ensures of `DownloadMedia` |
| `MediaFetcher.DownloadMedia` | tweet_loader.py:175-199 | the loop returns the image and clip lists of the two lemmas above, and two empty lists when the post has no `extended_entities` / `media` |
| `Narration.Preamble` | tweet_loader.py:148 | the definition of the spoken preamble `author + ' says..'`. Used in the length clauses of `TweetTalk` |
| `Narration.BodyLanguage` | tweet_loader.py:150-154 | the definition of the body language: `lang` when the engine accepts it, `'ta'` otherwise. `TweetTalk` states the body language of every spoken or unsavable outcome through it, and `UnknownLanguageFallsBack` gives the fallback case |
| `Narration.Raises` | tweet_loader.py:148-154 | the definition of the engine failures that leave `tweet_talk`: for a non-empty text, the preamble cannot be synthesised in `'en'` or saved, or the body language is rejected too. `TweetTalk` states `Raised` if and only if it holds |
| `Narration.TweetTalk` | tweet_loader.py:144-172 | empty text gives `EmptyText` (returns 0). The body is spoken in `lang`, or in `'ta'` when `lang` is rejected. A failed body save gives `Unsavable` (returns 0). An engine failure outside those handlers raises. Otherwise the length is preamble + 1000 ms + body + 1000 ms (>= 2000 ms), with `prior + 1000 ms` in front only when `index != 0` and `tmp/res.mp3` can be read. Each outcome is stated as an if-and-only-if on the engine |
| `Narration.Seconds` | tweet_loader.py:172 | the returned duration is the length in seconds, non-negative, and positive exactly for a non-empty spoken track |
| `Narration.IndexZeroNeverChains` | tweet_loader.py:166-170 | with index 0, as at the call at line 53, the prior narration never matters |
| `Narration.UnknownLanguageFallsBack` | tweet_loader.py:150-154 | a rejected language is retried once in `'ta'`, and a savable text then yields a track of at least 2 s |
| `Caption.CaptionText` | tweet_loader.py:129 | the definition of the text handed to `textwrap.wrap`, `author + ': ' + tweet`. Used by `LoadTweetImage` and `BoardOf` |
| `Caption.Layout` | tweet_loader.py:130-135 | one drawn line per wrapped line |
| `Caption.LayoutPlacesEachLine` | tweet_loader.py:130-135 | wrapped line k is drawn with its own text at (75, 200 + 55 k), so the first line is at y = 200, also for a one-line caption |
| `Caption.LayoutTopToBottom` | tweet_loader.py:130-135 | of two lines, the later one in wrap order is drawn at the same x = 75, exactly 55 px per line further down |
| `Caption.DrawLines` | tweet_loader.py:130-135 | the drawing loop with `y += line_spacing` produces `Layout` of the wrapped lines |
| `Segments.Slides` | tweet_loader.py:85 | one slide per image, in order, each of length `duration / len(images)` |
| `Segments.TotalOfEqualSlides` | tweet_loader.py:85 | slides of equal length add up to count times length |
| `Segments.SlidesFillDuration` | tweet_loader.py:85 | the slides together last exactly the narration |
| `Segments.SingleImage` | tweet_loader.py:85-88 | with one image, the single slide carries the full duration |
| `Segments.Render` | tweet_loader.py:83-102 | the segment is the slides of `Slides` (one per image, in order, each `duration / len(images)`, together filling the duration) with the narration, followed by the clips in fetch order |
| `Ordering.JoinVideos` | tweet_loader.py:108 | the definition of `os.path.join('tmp/videos', filename)`. `AfterLastOfJoin` gives the name back, and `SegmentKey` gives the key of a joined segment name |
| `Ordering.SortKey` | tweet_loader.py:109 | the definition of the sort key `int(x.rsplit('/')[-1].split('.')[0])`, `None` for the `ValueError`. Characterised by `SegmentKey` |
| `Ordering.SegmentName` | tweet_loader.py:104 | the definition of the segment file name `str(index) + '.mp4'`. Characterised by `SegmentKey` and `SegmentNameInjective` |
| `Ordering.Insert` | tweet_loader.py:109 | inserting into an ascending listing keeps it ascending and adds exactly one path |
| `Ordering.InsertBelow` | tweet_loader.py:109 | a permutation keeps an upper bound on the keys |
| `Ordering.SortByKey` | tweet_loader.py:109 | `sort(key=...)` gives a permutation of the paths, ascending by key |
| `Ordering.DistinctKeysStrict` | tweet_loader.py:109 | an ascending listing with pairwise distinct keys is strictly ascending |
| `Ordering.SegmentKey` | tweet_loader.py:104-109 | the sort key of `tmp/videos/<index>.mp4` is `index` |
| `Ordering.StrictOrderUnique` | tweet_loader.py:108-109 | two strictly ascending listings of the same paths are equal, so the sorted order does not depend on the listing order |
| `Ordering.TailMembers` | tweet_loader.py:109 | removing the shared least path leaves listings with the same members |
| `Ordering.SameMembersBothEmpty` | tweet_loader.py:108 | listings with the same members are empty together |
| `Pipeline.DirsOnly` | tweet_loader.py:62-79 | the definition of a directory after clearing: its subdirectories only. Characterised by `ClearingIsIdempotent`, and the target of `RemoveFiles` |
| `Pipeline.ClearingIsIdempotent` | tweet_loader.py:62-79 | clearing leaves every directory unchanged and removes every file. Clearing a second time changes nothing |
| `Pipeline.ClearForgetsFile` | tweet_loader.py:62-69 | a file written before a clear does not survive it |
| `Pipeline.ListDir` | tweet_loader.py:63 | `os.listdir` lists every entry exactly once, in an order left open |
| `Pipeline.NextListed` | tweet_loader.py:63-67 | stepping past one entry of a repeat-free listing leaves exactly the others to visit |
| `Pipeline.RemoveFiles` | tweet_loader.py:62-69 | the deletion loop leaves exactly the subdirectories, whatever the listing order |
| `Pipeline.DirsOnlyExact` | tweet_loader.py:62-69 | a map holding exactly the directories, unchanged, is the cleared directory |
| `Pipeline.NarrationAudio` | tweet_loader.py:89-93 | the definition of what `AudioFileClip('tmp/res.mp3')` opens: the audio file's length, or `None` where the `IOError` branch returns. Used by `CreateClip` and `Narrate` |
| `Pipeline.ItemTalk` | tweet_loader.py:51-53 | the definition of the narration of one post: `tweet_talk` of the cleaned text, with index 0 and no prior track. `IndexZeroNeverChains` shows the prior track does not matter |
| `Pipeline.Reverse` | tweet_loader.py:40 | `[::-1]`: post k of the processing order is post `n-1-k` of the timeline |
| `Pipeline.SegmentOf` | tweet_loader.py:53-55 | the definition of what `create_clip` writes for a spoken post: `Render` of its slide images, its clips and its narration. `Render`'s ensures characterise it |
| `Pipeline.SlideImages` | tweet_loader.py:55 | the slides come from the downloaded images, or from `['tmp/board.jpeg']` when there are none, and are never empty |
| `Pipeline.PostSegment` | tweet_loader.py:53-55 | a post has a segment exactly when its narration is spoken (`duration > 0`) |
| `Pipeline.Plan` | tweet_loader.py:47-57 | one entry per post, in processing order |
| `Pipeline.PlanAt` | tweet_loader.py:47-57 | entry k of the plan is the segment of post k |
| `Pipeline.Raising` | tweet_loader.py:53 | one flag per post, in processing order |
| `Pipeline.RaisingAt` | tweet_loader.py:53 | flag k says whether `tweet_talk` raises on post k |
| `Pipeline.RenderedIndicesExact` | tweet_loader.py:54-55 | the indices that get segments are a strictly increasing subsequence of 0..n-1, holding exactly the posts with a segment |
| `Pipeline.PresentAtIndices` | tweet_loader.py:54-58 | the present segments are the plan's segments at the rendered indices, in order |
| `Pipeline.SegmentNameInjective` | tweet_loader.py:104 | distinct indices write distinct files |
| `Pipeline.SegmentFilesHave` | tweet_loader.py:104 | `tmp/videos/` holds the segment of every rendered post under `<index>.mp4` |
| `Pipeline.SegmentFilesOnly` | tweet_loader.py:104 | `tmp/videos/` holds nothing else |
| `Pipeline.SegmentFilesExact` | tweet_loader.py:104 | both of the above together |
| `Pipeline.SegmentPathsAscend` | tweet_loader.py:108-109 | the rendered segment paths, in processing order, ascend strictly by sort key, gaps in the indices notwithstanding |
| `Pipeline.SegmentStemsDistinct` | tweet_loader.py:104-109 | no two segment files share an integer stem |
| `Pipeline.SegmentPathsListed` | tweet_loader.py:108 | every rendered segment path is the join of a file of `tmp/videos/` |
| `Pipeline.ListedSegmentPaths` | tweet_loader.py:108 | the join of every file of `tmp/videos/` is a rendered segment path |
| `Pipeline.SegmentPathsMembers` | tweet_loader.py:108 | the rendered segment paths are exactly the joined names of `tmp/videos/` |
| `Pipeline.VideoAt` | tweet_loader.py:111 | the definition of `VideoFileClip(path)` on a path into `tmp/videos/`: the segment stored under the path's last component. Characterised by `VideoAtSegment` |
| `Pipeline.Concatenation` | tweet_loader.py:111-112 | the definition of `concatenate_videoclips` over the clips loaded from the paths, in path order. `ConcatenationInOrder` states that, over the sorted listing, it is the present segments in processing order |
| `Pipeline.VideoAtSegment` | tweet_loader.py:111 | loading a segment path gives back the segment written there |
| `Pipeline.SegmentPathsLoad` | tweet_loader.py:111-112 | loading the segment paths in processing order gives the present segments |
| `Pipeline.ConcatenationInOrder` | tweet_loader.py:107-114 | whatever order `os.listdir` returns, the sorted listing is the processing order, and the concatenation is the present segments in processing order |
| `Pipeline.BoardOf` | tweet_loader.py:117-141 | the definition of what `load_tweet_image` leaves in `tmp/board.jpeg`: the layout of the wrapped caption. Equal to the ensures of `LoadTweetImage`, and the `tmp/` state `ProcessPost` and `ReadTimeline` state after a raise |
| `Pipeline.ScratchCleared` | tweet_loader.py:57 | the board and narration written for a post do not survive `clear_tmp` |
| `Pipeline.ClearAllFiles` | tweet_loader.py:59 | clearing a directory of files leaves it empty |
| `Pipeline.NoSegmentsNoFiles` | tweet_loader.py:58 | `tmp/videos/` is empty exactly when no post has a segment |
| `Pipeline.SegmentFilesSortable` | tweet_loader.py:109 | every segment file has a name whose integer stem `int` accepts |
| `Pipeline.SortedListing` | tweet_loader.py:108-109 | the joined listing, sorted, names every entry once and ascends by stem, strictly when stems are distinct |
| `Pipeline.StemsOfListing` | tweet_loader.py:109 | distinct stems give distinct keys to the paths of a listing |
| `Pipeline.JoinedListing` | tweet_loader.py:108 | joining a repeat-free listing onto `tmp/videos` gives repeat-free paths naming exactly the entries |
| `Pipeline.Rearranged` | tweet_loader.py:109 | a permutation of repeat-free paths has the same members and no repeats |
| `Pipeline.DistinctMultiplicity` | tweet_loader.py:109 | a repeat-free sequence holds each value at most once |
| `Pipeline.MultiplicityOfTwo` | tweet_loader.py:109 | a value at two positions occurs at least twice |
| `Pipeline.Disk.ClearTmp` | tweet_loader.py:62-69 | `tmp/` afterwards holds exactly its former subdirectories |
| `Pipeline.Disk.ClearVideos` | tweet_loader.py:72-79 | `tmp/videos/` afterwards holds exactly its former subdirectories |
| `Pipeline.Disk.RemoveOutput` | tweet_loader.py:43-46 | `tweet_video.mp4` is gone afterwards, whether or not it existed |
| `Pipeline.Disk.CreateClip` | tweet_loader.py:82-104 | with no readable `tmp/res.mp3`, nothing is written. Otherwise `tmp/videos/<index>.mp4` holds the rendered segment with that narration, and nothing else changes |
| `Pipeline.Disk.ConcatClips` | tweet_loader.py:107-114 | on a non-empty directory of rendered segments with integer-stemmed names, the output is `Concatenation`, the definition of lines 111-112 (the clip loaded from each path, in path order), over the sorted listing |
| `Pipeline.Disk.LoadTweetImage` | tweet_loader.py:117-141 | `tmp/board.jpeg` holds the layout of the wrapped caption `author + ': ' + tweet` |
| `Pipeline.Disk.Narrate` | tweet_loader.py:144-172 | the outcome is `TweetTalk` with the prior narration read from `tmp/res.mp3`. `tmp/res.mp3` is replaced by the new track exactly when it is spoken |
| `Pipeline.Disk.ProcessPost` | tweet_loader.py:48-57 | it raises exactly when `Raising` says so, leaving the board in `tmp/`. Otherwise `tmp/` is cleared back to its start and `tmp/videos/` gains the post's plan entry under its index, if present |
| `Pipeline.Disk.ProcessPosts` | tweet_loader.py:47-57 | it stops at the first raising post, if any, and `tmp/videos/` then holds the segments of the posts before it. Otherwise it holds the segments of all posts |
| `Pipeline.Disk.FinishRun` | tweet_loader.py:58-59 | with no segment it stops before concatenating. Otherwise the output is the present segments in processing order and the rendered indices are reported. `tmp/videos/` ends empty |
| `Pipeline.Disk.ReadTimeline` | tweet_loader.py:23-59 | on the reversed timeline, one of three outcomes: stopped at the first raising post with the state at that point; no segment at all; or the output is the present segments in processing order, with the rendered indices. Scratch directories end cleared except after a raise |

## Left out

- Authentication, `.env` loading and the `home_timeline` request (lines 24-40) are network I/O. The timeline is an input of `ReadTimeline`, which reverses it as line 40 does.
- Downloads (`urlretrieve`), PIL image opening, resizing, fonts and saving (lines 121-127, 141, 191-197) are foreign I/O. The downloaded media files are not entries of `tmp/`, and the board is a file holding its drawn lines. After a post that completes, `clear_tmp` removes the downloads anyway. After a post whose `tweet_talk` raises, the program leaves them in `tmp/`, and the model's `tmp/` after an `Aborted` run shows only the subdirectories and the board.
- `textwrap.wrap` (line 129) is a library call with intricate rules. It is the parameter `wrap`, a function of the text and the width, called on the caption and `Caption.TextWidth` (60).
- gTTS, pydub and moviepy are not modelled: synthesis, decoding, encoding, `resize((1280, 720))` and concatenation. Audio is a length in milliseconds, `Engine` is the oracle, and a video is an abstract `Segment`. The intermediate files `tmp/author.mp3` and `tmp/tweet.mp3` are not entries of `tmp/`, because nothing reads them back outside `tweet_talk`. After a raise they are not cleared: `tmp/author.mp3` stays behind when the fallback `gTTS` call at line 154 raises, and the model does not show it.
- `print` calls are output only.
- Real filesystem semantics and the swallowed `OSError` of the clearing loops are not modelled. Directories are finite maps. `ReadTimeline` requires that `tmp/videos/` holds no subdirectory and that `tmp/` has no directory named `board.jpeg` or `res.mp3`; otherwise the run would fail in ways the model does not follow.
- `concat_clips` on an empty `tmp/videos/` is left out, because the program does not handle that case: moviepy raises. `ConcatClips` requires a non-empty directory. `ReadTimeline` reports `NothingToJoin` at that point, without a result and without the final `clear_videos`; `tmp/videos/` is empty then anyway.
- `Pipeline.Disk.ConcatClips` also requires every entry of `tmp/videos/` to be a rendered segment, and every name to have an integer stem. On a subdirectory or a file `VideoFileClip` cannot open, line 111 raises; on a name without an integer stem, the sort at line 109 raises. Neither raise is modelled. Inside a run these entries never occur: `ReadTimeline` starts with no subdirectory in `tmp/videos/`, and only segments are written there.
- Python floats are exact reals and integers in the model. pydub's `duration_seconds` (line 172) and `duration / len(images)` (line 85) are exact, so `SlidesFillDuration` holds exactly in the model but only up to floating-point rounding in the program.
- `AudioFileClip` failing on a file that exists (lines 89-93) is not modelled. `CreateClip` skips the post only when `tmp/res.mp3` is missing or is no audio file, and inside a run that never happens.
- `Strings.ParseNat` models `int` on the names this pipeline writes. Python's `int` also accepts signs, surrounding whitespace, underscores and non-ASCII digits, which never occur there.
- `Ordering.SortByKey` is proved to give an ascending permutation. The stability of Python's sort is not proved, because segment stems are distinct and stability changes nothing there.
- `Narration.TweetTalk` states a spoken track of at least 2000 ms, rather than strictly more than 2 s: with both speech lengths 0 it is exactly 2 s.
- Exceptions other than those `tweet_talk` can raise through the engine are not modelled, for example a failing download or a corrupt image. A raise inside `tweet_talk` ends the run, as `Aborted`.
- `Narration.TweetTalk`: the `saves` oracle lets the body save at line 157 fail only with the `AssertionError` that line 158 catches, giving `Unsavable`. Another exception from that save, such as a `gTTSError` from the speech service, would leave `tweet_talk` in the program and is not modelled.
