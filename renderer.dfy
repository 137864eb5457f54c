/** What `plot_passes` hands to the pitch: one styled arrow per selected pass. */
module Renderer {
  import opened Wrappers
  import opened PassTable
  import opened Statistics

  datatype Colour = Blue | Red

  /** The arguments of one `pitch.arrows` call that depend on the row. */
  datatype Arrow = Arrow(xStart: real, yStart: real, xEnd: real, yEnd: real, width: real, colour: Colour)

  const MinWidth: real := 0.5
  const WidthScale: real := 10.0

  function Abs(v: real): real
  {
    if v < 0.0 then -v else v
  }

  /**
   * `max(0.5, abs(obv) * 10)`. Python's `max` keeps its first argument
   * unless the second is greater, so a NaN value gives the minimum width.
   */
  function ArrowWidth(obv: Option<real>): (w: real)
    ensures w >= MinWidth
    ensures obv.None? ==> w == MinWidth
    ensures obv.Some? ==> w >= Abs(obv.value) * WidthScale
    ensures obv.Some? ==> w == MinWidth || w == Abs(obv.value) * WidthScale
  {
    match obv
    case None => MinWidth
    case Some(v) =>
      var scaled := Abs(v) * WidthScale;
      if scaled > MinWidth then scaled else MinWidth
  }

  /** A pass with a larger net value never gets a thinner arrow. */
  lemma ArrowWidthMonotone(u: real, v: real)
    requires Abs(u) <= Abs(v)
    ensures ArrowWidth(Some(u)) <= ArrowWidth(Some(v))
  {
  }

  /** Blue for a completed pass, red for any other outcome. */
  function ArrowColour(outcome: string): (c: Colour)
    ensures c == Blue <==> outcome == CompleteLabel
  {
    if outcome == CompleteLabel then Blue else Red
  }

  function ArrowFor(x: Record): (a: Arrow)
    ensures a.xStart == x.locationX && a.yStart == x.locationY
    ensures a.xEnd == x.endLocationX && a.yEnd == x.endLocationY
    ensures a.width == ArrowWidth(x.obvForNet) && a.width >= MinWidth
    ensures a.colour == Blue <==> x.outcome == CompleteLabel
  {
    Arrow(x.locationX, x.locationY, x.endLocationX, x.endLocationY,
          ArrowWidth(x.obvForNet), ArrowColour(x.outcome))
  }

  /** The loop over `df.iterrows()`: the arrows, in row order. */
  function Arrows(s: seq<Record>): (r: seq<Arrow>)
    ensures |r| == |s|
    ensures forall i :: 0 <= i < |s| ==> r[i] == ArrowFor(s[i])
  {
    if |s| == 0 then [] else [ArrowFor(s[0])] + Arrows(s[1..])
  }

  function BlueCount(arrows: seq<Arrow>): nat
  {
    if |arrows| == 0 then 0
    else (if arrows[0].colour == Blue then 1 else 0) + BlueCount(arrows[1..])
  }

  /**
   * The picture agrees with the summary: as many blue arrows as completed
   * passes, as many red ones as incomplete passes.
   */
  lemma {:induction false} ArrowsMatchSummary(s: seq<Record>)
    ensures BlueCount(Arrows(s)) == Summarize(s).completed
    ensures |Arrows(s)| - BlueCount(Arrows(s)) == Summarize(s).incomplete
  {
    if |s| > 0 {
      ArrowsMatchSummary(s[1..]);
      assert Arrows(s)[1..] == Arrows(s[1..]);
    }
  }
}
