/**
 * The two range sliders: their default positions (the column minimum and
 * maximum) and the closed-interval selection on both metrics.
 */
module RangeSelector {
  import opened Wrappers
  import opened PassTable

  /** The four slider values; nothing orders a low bound below its high bound. */
  datatype Bounds = Bounds(loObv: real, hiObv: real, loPsp: real, hiPsp: real)

  /** Both closed-interval comparisons, `&`-ed; a NaN cell fails both of its comparisons. */
  function RangeMask(b: Bounds): (m: Mask)
    ensures forall x :: Holds(m, x) <==>
      && x.obvForNet.Some? && b.loObv <= x.obvForNet.value <= b.hiObv
      && x.passSuccessProbability.Some? && b.loPsp <= x.passSuccessProbability.value <= b.hiPsp
  {
    And(Within(ObvForNet, b.loObv, b.hiObv), Within(PassSuccessProbability, b.loPsp, b.hiPsp))
  }

  /** `Series.min()`: the least present value of a column, `None` when every cell is NaN. */
  function ColumnMin(rows: seq<Record>, c: Metric): (r: Option<real>)
    ensures r.None? <==> forall x :: x in rows ==> MetricOf(x, c).None?
    ensures r.Some? ==> exists x :: x in rows && MetricOf(x, c) == r
    ensures r.Some? ==> forall x :: x in rows && MetricOf(x, c).Some? ==> r.value <= MetricOf(x, c).value
  {
    if |rows| == 0 then None
    else
      assert rows == [rows[0]] + rows[1..];
      var rest := ColumnMin(rows[1..], c);
      match MetricOf(rows[0], c)
      case None => rest
      case Some(v) => if rest.Some? && rest.value < v then rest else Some(v)
  }

  /** `Series.max()`: the greatest present value of a column, `None` when every cell is NaN. */
  function ColumnMax(rows: seq<Record>, c: Metric): (r: Option<real>)
    ensures r.None? <==> forall x :: x in rows ==> MetricOf(x, c).None?
    ensures r.Some? ==> exists x :: x in rows && MetricOf(x, c) == r
    ensures r.Some? ==> forall x :: x in rows && MetricOf(x, c).Some? ==> MetricOf(x, c).value <= r.value
  {
    if |rows| == 0 then None
    else
      assert rows == [rows[0]] + rows[1..];
      var rest := ColumnMax(rows[1..], c);
      match MetricOf(rows[0], c)
      case None => rest
      case Some(v) => if rest.Some? && rest.value > v then rest else Some(v)
  }

  /** Where the four sliders start: each low bound at its column's minimum, each high bound at its maximum. */
  function DefaultBounds(rows: seq<Record>): (r: Option<Bounds>)
    ensures r.None? <==>
      || (forall x :: x in rows ==> x.obvForNet.None?)
      || (forall x :: x in rows ==> x.passSuccessProbability.None?)
    ensures r.Some? ==> r.value == Bounds(
      ColumnMin(rows, ObvForNet).value, ColumnMax(rows, ObvForNet).value,
      ColumnMin(rows, PassSuccessProbability).value, ColumnMax(rows, PassSuccessProbability).value)
    ensures r.Some? ==> r.value.loObv <= r.value.hiObv && r.value.loPsp <= r.value.hiPsp
    ensures r.Some? ==> forall x :: x in rows && x.obvForNet.Some? ==>
      r.value.loObv <= x.obvForNet.value <= r.value.hiObv
    ensures r.Some? ==> forall x :: x in rows && x.passSuccessProbability.Some? ==>
      r.value.loPsp <= x.passSuccessProbability.value <= r.value.hiPsp
  {
    var loObv, hiObv := ColumnMin(rows, ObvForNet), ColumnMax(rows, ObvForNet);
    var loPsp, hiPsp := ColumnMin(rows, PassSuccessProbability), ColumnMax(rows, PassSuccessProbability);
    if loObv.Some? && hiObv.Some? && loPsp.Some? && hiPsp.Some? then
      Some(Bounds(loObv.value, hiObv.value, loPsp.value, hiPsp.value))
    else
      None
  }

  /** The rows whose two metrics both lie in their closed intervals. */
  function RangeFilter(rows: seq<Record>, b: Bounds): (r: seq<Record>)
    ensures forall x :: x in r <==>
      && x in rows
      && x.obvForNet.Some? && b.loObv <= x.obvForNet.value <= b.hiObv
      && x.passSuccessProbability.Some? && b.loPsp <= x.passSuccessProbability.value <= b.hiPsp
    ensures |r| <= |rows|
  {
    Filter(rows, RangeMask(b))
  }

  /** The range selection keeps its rows in order and drops none that is in range. */
  lemma RangeFilterKeepsOrder(rows: seq<Record>, b: Bounds)
    ensures Embeds(RangeFilter(rows, b), rows, KeptIndices(rows, RangeMask(b)))
    ensures forall i :: 0 <= i < |rows| && Holds(RangeMask(b), rows[i]) ==>
      i in KeptIndices(rows, RangeMask(b))
  {
    FilterEmbeds(rows, RangeMask(b));
    forall i | 0 <= i < |rows| && Holds(RangeMask(b), rows[i])
      ensures i in KeptIndices(rows, RangeMask(b))
    {
      FilterKeepsEveryMatch(rows, RangeMask(b), i);
    }
  }

  /** A low slider set above its high slider selects nothing. */
  lemma InvertedRangeIsEmpty(rows: seq<Record>, b: Bounds)
    requires b.loObv > b.hiObv || b.loPsp > b.hiPsp
    ensures RangeFilter(rows, b) == []
  {
    FilterKeepsNone(rows, RangeMask(b));
  }

  /** `inner` lies within `outer` on both metrics. */
  predicate Narrower(inner: Bounds, outer: Bounds)
  {
    && outer.loObv <= inner.loObv && inner.hiObv <= outer.hiObv
    && outer.loPsp <= inner.loPsp && inner.hiPsp <= outer.hiPsp
  }

  /**
   * Narrowing either interval only removes rows: the narrower selection is the
   * wider one filtered again, so its count is never larger.
   */
  lemma NarrowingNeverAdds(rows: seq<Record>, inner: Bounds, outer: Bounds)
    requires Narrower(inner, outer)
    ensures RangeFilter(rows, inner) == Filter(RangeFilter(rows, outer), RangeMask(inner))
    ensures |RangeFilter(rows, inner)| <= |RangeFilter(rows, outer)|
  {
    FilterNarrower(rows, RangeMask(inner), RangeMask(outer));
  }

  /**
   * With the sliders where they start, the range selection keeps every row
   * whose two metrics are present, so it is the identity on a cleaned table.
   */
  lemma DefaultBoundsKeepAll(rows: seq<Record>)
    requires forall x :: x in rows ==> x.obvForNet.Some? && x.passSuccessProbability.Some?
    ensures rows != [] ==> DefaultBounds(rows).Some?
    ensures rows != [] ==> RangeFilter(rows, DefaultBounds(rows).value) == rows
  {
    if rows != [] {
      assert rows[0] in rows;
      assert MetricOf(rows[0], ObvForNet).Some? && MetricOf(rows[0], PassSuccessProbability).Some?;
      var b := DefaultBounds(rows).value;
      forall x | x in rows ensures Holds(RangeMask(b), x) {
        assert MetricOf(x, ObvForNet).Some? && MetricOf(x, PassSuccessProbability).Some?;
      }
      FilterKeepsAll(rows, RangeMask(b));
    }
  }
}
