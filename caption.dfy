/**
 * The drawing loop of `load_tweet_image`: the caption `author + ': ' + text`
 * (the raw text, links and `#` included) is wrapped by `textwrap.wrap` at
 * `TextWidth` columns, which is not modelled and is given as a function of the
 * text and the width, and each wrapped line is drawn at a fixed left margin,
 * one line spacing below the previous one.
 */
module Caption {

  const TextWidth: nat := 60
  const LeftMargin: int := 75
  const Top: int := 200
  const LineSpacing: int := 55

  /** One `I1.text((x, y), line, ...)` call. */
  datatype Line = Line(x: int, y: int, text: string)

  /** The string handed to `textwrap.wrap`. */
  function CaptionText(author: string, tweet: string): string {
    author + ": " + tweet
  }

  /** Where each wrapped line is drawn. */
  function Layout(lines: seq<string>): (r: seq<Line>)
    ensures |r| == |lines|
  {
    seq(|lines|, k requires 0 <= k < |lines| => Line(LeftMargin, Top + LineSpacing * k, lines[k]))
  }

  /** Line `k` of the caption is drawn at (75, 200 + 55 k): the first at y = 200. */
  lemma LayoutPlacesEachLine(lines: seq<string>)
    ensures forall k :: 0 <= k < |lines| ==> Layout(lines)[k] == Line(75, 200 + 55 * k, lines[k])
    ensures lines != [] ==> Layout(lines)[0] == Line(75, 200, lines[0])
  {
  }

  /** Lines are drawn in wrap order, top to bottom, exactly one spacing apart, at the margin. */
  lemma LayoutTopToBottom(lines: seq<string>, a: nat, b: nat)
    requires a < b < |lines|
    ensures Layout(lines)[a].text == lines[a] && Layout(lines)[b].text == lines[b]
    ensures Layout(lines)[a].x == Layout(lines)[b].x == LeftMargin
    ensures Layout(lines)[b].y - Layout(lines)[a].y == LineSpacing * (b - a) >= LineSpacing
  {
  }

  /** The loop of lines 131-135, `y` starting at 200 and growing by 55. */
  method DrawLines(lines: seq<string>) returns (drawn: seq<Line>)
    ensures drawn == Layout(lines)
  {
    drawn := [];
    var y := Top;
    for i := 0 to |lines|
      invariant y == Top + LineSpacing * i
      invariant drawn == Layout(lines[..i])
    {
      drawn := drawn + [Line(LeftMargin, y, lines[i])];
      y := y + LineSpacing;
      assert lines[..i + 1] == lines[..i] + [lines[i]];
    }
    assert lines[..|lines|] == lines;
  }
}
