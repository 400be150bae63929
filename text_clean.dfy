/**
 * The text that is spoken for a post: `re.sub(r'http\S+', '', text).replace('#', '')`.
 * The one regular expression is written out by hand: a match is the four
 * letters `http` followed by the longest non-empty run of non-whitespace
 * characters; `re.sub` removes the leftmost match, then searches again after it.
 */
module TextClean {

  /** Python's `\s` on `str` patterns: the characters for which `str.isspace()` holds. */
  predicate IsSpace(c: char) {
    var n := c as int;
    (0x09 <= n <= 0x0D) || (0x1C <= n <= 0x20) || n == 0x85 || n == 0xA0 || n == 0x1680
    || (0x2000 <= n <= 0x200A) || n == 0x2028 || n == 0x2029 || n == 0x202F || n == 0x205F
    || n == 0x3000
  }

  /** `http\S+` matches at position `i` of `s`. */
  predicate UrlAt(s: string, i: nat) {
    i + 5 <= |s| && s[i] == 'h' && s[i + 1] == 't' && s[i + 2] == 't' && s[i + 3] == 'p'
    && !IsSpace(s[i + 4])
  }

  /** The four letters `http` start at position `i` of `s`. */
  predicate HttpAt(s: string, i: nat) {
    i + 4 <= |s| && s[i] == 'h' && s[i + 1] == 't' && s[i + 2] == 't' && s[i + 3] == 'p'
  }

  /** No position of `s` starts a match of `http\S+`. */
  predicate NoUrl(s: string) {
    forall i: nat | i < |s| :: !UrlAt(s, i)
  }

  /** The length of the leading run of non-whitespace characters: what `\S+` consumes greedily. */
  function NonSpaceRun(s: string): (n: nat)
    ensures n <= |s|
    ensures forall k :: 0 <= k < n ==> !IsSpace(s[k])
    ensures n == |s| || IsSpace(s[n])
  {
    if s == [] || IsSpace(s[0]) then 0
    else
      var n := NonSpaceRun(s[1..]);
      assert forall k :: 1 <= k < n + 1 ==> s[k] == s[1..][k - 1];
      n + 1
  }

  /** Drops the leading run of non-whitespace characters. */
  function SkipNonSpace(s: string): (r: string)
    ensures |r| <= |s|
    ensures r == [] || IsSpace(r[0])
  {
    s[NonSpaceRun(s)..]
  }

  /** `re.sub(r'http\S+', '', s)`. */
  function StripUrls(s: string): string
    decreases |s|
  {
    if UrlAt(s, 0) then StripUrls(SkipNonSpace(s[5..]))
    else if s == [] then []
    else [s[0]] + StripUrls(s[1..])
  }

  /** `s.replace('#', '')`. */
  function RemoveHashes(s: string): (r: string)
    ensures '#' !in r
  {
    if s == [] then []
    else if s[0] == '#' then RemoveHashes(s[1..])
    else [s[0]] + RemoveHashes(s[1..])
  }

  /** The narration text of line 51. */
  function Clean(s: string): string {
    RemoveHashes(StripUrls(s))
  }

  /** Every character other than `#` keeps its number of occurrences. */
  lemma {:induction false} RemoveHashesKeepsOthers(s: string)
    ensures multiset(RemoveHashes(s)) == multiset(s)['#' := 0]
  {
    if s != [] {
      RemoveHashesKeepsOthers(s[1..]);
      assert s == [s[0]] + s[1..];
    }
  }

  lemma {:induction false} RemoveHashesLength(s: string)
    ensures |RemoveHashes(s)| <= |s|
    ensures |RemoveHashes(s)| == |s| <==> '#' !in s
    ensures '#' !in s ==> RemoveHashes(s) == s
  {
    if s != [] {
      RemoveHashesLength(s[1..]);
      assert s == [s[0]] + s[1..];
    }
  }

  lemma {:induction false} StripUrlsShortens(s: string)
    ensures |StripUrls(s)| <= |s|
    ensures StripUrls(s) != s ==> |StripUrls(s)| < |s|
    decreases |s|
  {
    if UrlAt(s, 0) {
      StripUrlsShortens(SkipNonSpace(s[5..]));
    } else if s != [] {
      StripUrlsShortens(s[1..]);
      assert s == [s[0]] + s[1..];
    }
  }

  /** Text without a match is left as it is. */
  lemma {:induction false} StripUrlsIdentity(s: string)
    requires NoUrl(s)
    ensures StripUrls(s) == s
    decreases |s|
  {
    assert !UrlAt(s, 0);
    if s != [] {
      forall i: nat | i < |s[1..]| ensures !UrlAt(s[1..], i) {
        assert !UrlAt(s, i + 1);
      }
      StripUrlsIdentity(s[1..]);
      assert s == [s[0]] + s[1..];
    }
  }

  /** The output starts either with a whitespace character, left behind by a
      removed match, or with the first input character, when no match starts there. */
  lemma {:induction false} StripUrlsHead(s: string)
    requires StripUrls(s) != []
    ensures IsSpace(StripUrls(s)[0]) || (!UrlAt(s, 0) && StripUrls(s) == [s[0]] + StripUrls(s[1..]))
  {
    if UrlAt(s, 0) {
      var t := SkipNonSpace(s[5..]);
      assert t != [] && IsSpace(t[0]) && !UrlAt(t, 0);
      assert StripUrls(s) == StripUrls(t) == [t[0]] + StripUrls(t[1..]);
    }
  }

  /** A prefix of the output with no whitespace in it is copied unchanged from the input. */
  lemma {:induction false} StripUrlsPrefix(s: string, k: nat)
    requires k <= |StripUrls(s)|
    requires forall j :: 0 <= j < k ==> !IsSpace(StripUrls(s)[j])
    ensures k <= |s| && forall j :: 0 <= j < k ==> StripUrls(s)[j] == s[j]
    decreases k
  {
    if k > 0 {
      var r := StripUrls(s);
      StripUrlsHead(s);
      assert !IsSpace(r[0]);
      var r' := StripUrls(s[1..]);
      assert r == [s[0]] + r';
      assert forall j :: 0 <= j < k - 1 ==> r'[j] == r[j + 1];
      StripUrlsPrefix(s[1..], k - 1);
    }
  }

  /** After `re.sub`, no match of `http\S+` is left. */
  lemma {:induction false} StripUrlsLeavesNoUrl(s: string)
    ensures NoUrl(StripUrls(s))
    decreases |s|
  {
    var r := StripUrls(s);
    if UrlAt(s, 0) {
      StripUrlsLeavesNoUrl(SkipNonSpace(s[5..]));
    } else if s != [] {
      var r' := StripUrls(s[1..]);
      StripUrlsLeavesNoUrl(s[1..]);
      assert r == [s[0]] + r';
      forall i: nat | i < |r| ensures !UrlAt(r, i) {
        if i > 0 {
          assert !UrlAt(r', i - 1);
        } else if UrlAt(r, 0) {
          assert forall j :: 0 <= j < 4 ==> r'[j] == r[j + 1];
          StripUrlsPrefix(s[1..], 4);
          assert false;
        }
      }
    }
  }

  /** A whitespace character ends a run of non-whitespace: the run of `x + [w] + y`
      is the run of `x`. */
  lemma NonSpaceRunStops(x: string, w: char, y: string)
    requires IsSpace(w)
    ensures NonSpaceRun(x + [w] + y) == NonSpaceRun(x)
    ensures SkipNonSpace(x + [w] + y) == SkipNonSpace(x) + [w] + y
  {
    var s := x + [w] + y;
    var n, m := NonSpaceRun(x), NonSpaceRun(s);
    assert forall k :: 0 <= k < |x| ==> s[k] == x[k];
    assert s[|x|] == w;
    assert s[n..] == x[n..] + [w] + y;
  }

  /** The position of the first match of `http\S+` in `s`, or `|s|`. */
  function FirstUrl(s: string): (i: nat)
    ensures i <= |s|
    ensures i < |s| ==> UrlAt(s, i)
    ensures forall j: nat :: j < i ==> !UrlAt(s, j)
  {
    if s == [] || UrlAt(s, 0) then 0
    else
      var i := FirstUrl(s[1..]);
      assert forall j: nat :: 0 < j <= i ==> (UrlAt(s, j) <==> UrlAt(s[1..], j - 1));
      1 + i
  }

  /** Within one whitespace-free word, the text before the first `http` match is kept
      and everything from the match to the end of the word is removed. */
  lemma {:induction false} StripUrlsWord(word: string)
    requires forall k :: 0 <= k < |word| ==> !IsSpace(word[k])
    ensures StripUrls(word) == word[..FirstUrl(word)]
    decreases |word|
  {
    if UrlAt(word, 0) {
      var rest := word[5..];
      assert forall k :: 0 <= k < |rest| ==> !IsSpace(rest[k]) by {
        forall k | 0 <= k < |rest| ensures !IsSpace(rest[k]) { assert rest[k] == word[k + 5]; }
      }
      assert SkipNonSpace(rest) == [];
    } else if word != [] {
      var tail := word[1..];
      assert forall k :: 0 <= k < |tail| ==> !IsSpace(tail[k]) by {
        forall k | 0 <= k < |tail| ensures !IsSpace(tail[k]) { assert tail[k] == word[k + 1]; }
      }
      StripUrlsWord(tail);
      var i := FirstUrl(tail);
      assert forall j: nat :: 0 < j <= i ==> (UrlAt(word, j) <==> UrlAt(tail, j - 1));
      assert FirstUrl(word) == 1 + i;
      assert word[..1 + i] == [word[0]] + tail[..i];
    }
  }

  /** A match never reaches across whitespace: the text on either side of a
      whitespace character is cleaned on its own, and the whitespace is kept. */
  lemma {:induction false} StripUrlsSplitsAtSpace(a: string, w: char, b: string)
    requires IsSpace(w)
    ensures StripUrls(a + [w] + b) == StripUrls(a) + [w] + StripUrls(b)
    decreases |a|
  {
    var s := a + [w] + b;
    assert forall k :: 0 <= k < |a| ==> s[k] == a[k];
    assert s[|a|] == w;
    if a == [] {
      assert s == [w] + b;
      assert !UrlAt(s, 0);
      assert s[1..] == b;
    } else if UrlAt(s, 0) {
      assert |a| >= 5;
      assert UrlAt(a, 0);
      assert s[5..] == a[5..] + [w] + b;
      NonSpaceRunStops(a[5..], w, b);
      var a' := SkipNonSpace(a[5..]);
      StripUrlsSplitsAtSpace(a', w, b);
    } else {
      assert !UrlAt(a, 0);
      assert s[1..] == a[1..] + [w] + b;
      StripUrlsSplitsAtSpace(a[1..], w, b);
      assert [a[0]] + (StripUrls(a[1..]) + [w] + StripUrls(b)) == ([a[0]] + StripUrls(a[1..])) + [w] + StripUrls(b);
    }
  }

  /** What line 51 guarantees: no `#` is left, nothing is added, a `http\S+`-free
      and `#`-free text comes out unchanged, and only such a text does. */
  lemma CleanProperties(s: string)
    ensures '#' !in Clean(s)
    ensures |Clean(s)| <= |s|
    ensures Clean(s) == s <==> NoUrl(s) && '#' !in s
  {
    var u := StripUrls(s);
    StripUrlsShortens(s);
    RemoveHashesLength(u);
    if NoUrl(s) && '#' !in s {
      StripUrlsIdentity(s);
    }
    if Clean(s) == s {
      assert u == s;
      StripUrlsLeavesNoUrl(s);
    }
  }

  /** A text with neither `http` nor `#` is unchanged. */
  lemma CleanPlainText(s: string)
    requires forall i: nat :: !HttpAt(s, i)
    requires '#' !in s
    ensures Clean(s) == s
  {
    forall i: nat | i < |s| ensures !UrlAt(s, i) {
      assert !HttpAt(s, i);
    }
    CleanProperties(s);
  }
}
