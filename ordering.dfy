/**
 * The order of `concat_clips`: the segment paths `tmp/videos/<name>` are
 * sorted by `int(x.rsplit('/')[-1].split('.')[0])`, the integer that starts
 * the file name.
 */
module Ordering {
  import opened Wrappers
  import opened Strings

  const VideosDir: string := "tmp/videos"

  /** `os.path.join('tmp/videos', name)`. */
  function JoinVideos(name: string): string {
    VideosDir + "/" + name
  }

  /** The sort key of line 109; `None` is the ValueError of `int`. */
  function SortKey(path: string): Option<nat> {
    ParseNat(BeforeFirst(AfterLast(path, '/'), '.'))
  }

  /** The key as `sort` sees it; -1 never occurs on a listing whose names have integer stems. */
  function PathKey(path: string): int {
    if SortKey(path).Some? then SortKey(path).value else -1
  }

  predicate Ascending(paths: seq<string>, key: string -> int) {
    forall a, b :: 0 <= a < b < |paths| ==> key(paths[a]) <= key(paths[b])
  }

  predicate StrictlyAscending(paths: seq<string>, key: string -> int) {
    forall a, b :: 0 <= a < b < |paths| ==> key(paths[a]) < key(paths[b])
  }

  /** Inserts `p` into sorted `s` after every path whose key is not greater. */
  function Insert(s: seq<string>, p: string, key: string -> int): (r: seq<string>)
    requires Ascending(s, key)
    ensures multiset(r) == multiset(s) + multiset{p}
    ensures Ascending(r, key)
  {
    if s == [] then [p]
    else if key(s[|s| - 1]) <= key(p) then s + [p]
    else
      var init, last := s[..|s| - 1], s[|s| - 1];
      assert s == init + [last];
      var r' := Insert(init, p, key);
      InsertBelow(init, p, key, r', key(last));
      assert multiset(r' + [last]) == multiset(r') + multiset{last};
      r' + [last]
  }

  /** Every path of `r`, a permutation of `s` plus `p`, has a key at most `bound`
      when `p` and every path of `s` do. */
  lemma InsertBelow(s: seq<string>, p: string, key: string -> int, r: seq<string>, bound: int)
    requires multiset(r) == multiset(s) + multiset{p}
    requires key(p) <= bound
    requires forall k :: 0 <= k < |s| ==> key(s[k]) <= bound
    ensures forall k :: 0 <= k < |r| ==> key(r[k]) <= bound
  {
    forall k | 0 <= k < |r| ensures key(r[k]) <= bound {
      assert r[k] in multiset(r);
      if r[k] != p {
        assert r[k] in multiset(s);
        var j :| 0 <= j < |s| && s[j] == r[k];
      }
    }
  }

  /** `paths.sort(key=...)` (an insertion sort; only order by key and permutation are stated). */
  function SortByKey(paths: seq<string>, key: string -> int): (r: seq<string>)
    ensures multiset(r) == multiset(paths)
    ensures Ascending(r, key)
  {
    if paths == [] then []
    else
      assert paths == paths[..|paths| - 1] + [paths[|paths| - 1]];
      Insert(SortByKey(paths[..|paths| - 1], key), paths[|paths| - 1], key)
  }

  /** An ascending listing whose keys are pairwise distinct is strictly ascending. */
  lemma DistinctKeysStrict(paths: seq<string>, key: string -> int)
    requires Ascending(paths, key)
    requires forall a, b :: 0 <= a < b < |paths| ==> key(paths[a]) != key(paths[b])
    ensures StrictlyAscending(paths, key)
  {
  }

  /** The name a segment is written under, `'%s.mp4' % str(index)`. */
  function SegmentName(index: nat): string {
    NatToString(index) + ".mp4"
  }

  /** The key of a segment path is the index it was written for. */
  lemma SegmentKey(index: nat)
    ensures '/' !in SegmentName(index)
    ensures SortKey(JoinVideos(SegmentName(index))) == Some(index)
    ensures PathKey(JoinVideos(SegmentName(index))) == index
  {
    var digits := NatToString(index);
    assert forall k :: 0 <= k < |digits| ==> IsDigit(digits[k]);
    assert SegmentName(index) == digits + ['.'] + "mp4";
    assert JoinVideos(SegmentName(index)) == VideosDir + ['/'] + SegmentName(index);
    AfterLastOfJoin(VideosDir, '/', SegmentName(index));
    BeforeFirstOfJoin(digits, '.', "mp4");
    ParseNatToString(index);
  }

  /** Two listings with the same paths, each strictly ascending by key, are equal:
      the order of the concatenation does not depend on the order of the listing. */
  lemma {:induction false} StrictOrderUnique(a: seq<string>, b: seq<string>, key: string -> int)
    requires StrictlyAscending(a, key) && StrictlyAscending(b, key)
    requires forall p :: p in a <==> p in b
    ensures a == b
  {
    if a != [] && b != [] {
      assert a[0] in b && b[0] in a;
      var i :| 0 <= i < |b| && b[i] == a[0];
      var j :| 0 <= j < |a| && a[j] == b[0];
      assert key(a[0]) <= key(a[j]) == key(b[0]) <= key(b[i]) == key(a[0]);
      assert i == 0;
      TailMembers(a, b, key);
      TailMembers(b, a, key);
      StrictOrderUnique(a[1..], b[1..], key);
      assert a == [a[0]] + a[1..] && b == [b[0]] + b[1..];
    } else {
      SameMembersBothEmpty(a, b);
    }
  }

  /** With the same least element removed, the remaining members still agree. */
  lemma TailMembers(a: seq<string>, b: seq<string>, key: string -> int)
    requires a != [] && b != [] && a[0] == b[0]
    requires StrictlyAscending(a, key)
    requires forall p :: p in a ==> p in b
    ensures forall p :: p in a[1..] ==> p in b[1..]
  {
    forall p | p in a[1..] ensures p in b[1..] {
      var k :| 0 <= k < |a[1..]| && a[1..][k] == p;
      assert a[k + 1] == p && key(a[0]) < key(p);
      assert p in a;
      var m :| 0 <= m < |b| && b[m] == p;
      assert m != 0;
      assert b[1..][m - 1] == p;
    }
  }


  lemma SameMembersBothEmpty(a: seq<string>, b: seq<string>)
    requires forall p :: p in a <==> p in b
    ensures a == [] <==> b == []
  {
    if a != [] {
      assert a[0] in b;
    }
    if b != [] {
      assert b[0] in a;
    }
  }
}
