/**
 * One run of the script: load, select by range, by team, player and
 * outcome, then summarize and draw. Every interaction re-runs it from the
 * loaded table with the current widget values.
 */
module Dashboard {
  import opened Wrappers
  import opened PassTable
  import opened Loader
  import opened RangeSelector
  import opened CategoricalFilter
  import opened Statistics
  import opened Renderer

  /** The widget values of one run. */
  datatype Params = Params(bounds: Bounds, selection: Selection)

  /** What one run shows: the selected passes, their summary and their arrows. */
  datatype View = View(passes: seq<Record>, summary: PassStats, arrows: seq<Arrow>)

  /** Every condition a row of the table must meet to be shown, as one conjunction. */
  predicate Wanted(p: Params, x: Record)
  {
    && x.eventType == PassEvent
    && x.obvForNet.Some? && x.passSuccessProbability.Some? && x.underPressure.Some?
    && p.bounds.loObv <= x.obvForNet.value <= p.bounds.hiObv
    && p.bounds.loPsp <= x.passSuccessProbability.value <= p.bounds.hiPsp
    && p.selection.team.Some? && x.team == p.selection.team
    && p.selection.player.Some? && x.player == p.selection.player
    && OutcomeWanted(p.selection.passType, x.outcome)
  }

  function Compute(table: seq<Record>, p: Params): (v: View)
    ensures forall x :: x in v.passes <==> x in table && Wanted(p, x)
    ensures forall x :: multiset(v.passes)[x] == if Wanted(p, x) then multiset(table)[x] else 0
    ensures v.summary == Summarize(v.passes)
    ensures v.arrows == Arrows(v.passes)
    ensures |v.arrows| == v.summary.total == |v.passes|
    ensures p.selection.team.None? || p.selection.player.None? ==>
      v.passes == [] && v.arrows == [] && v.summary.total == 0 && v.summary.accuracy == 0.0
  {
    var rows := Clean(table);
    var ranged := RangeFilter(rows, p.bounds);
    var passes := Categorical(ranged, p.selection);
    assert p.selection.team.None? || p.selection.player.None? ==> passes == [];
    assert forall x :: multiset(passes)[x] == if Wanted(p, x) then multiset(table)[x] else 0 by {
      forall x ensures multiset(passes)[x] == if Wanted(p, x) then multiset(table)[x] else 0 {
        StagesMultiplicity(table, p, x);
      }
    }
    View(passes, Summarize(passes), Arrows(passes))
  }

  /** Each stage keeps every copy of a row it passes, so the run does too. */
  lemma StagesMultiplicity(table: seq<Record>, p: Params, x: Record)
    ensures multiset(Categorical(RangeFilter(Clean(table), p.bounds), p.selection))[x] ==
      if Wanted(p, x) then multiset(table)[x] else 0
  {
    var rows := Clean(table);
    CleanKeepsOrder(table);
    FilterMultiplicity(rows, RangeMask(p.bounds), x);
    CategoricalMultiplicity(RangeFilter(rows, p.bounds), p.selection, x);
  }

  /** The passes shown are the table's qualifying rows, in table order. */
  lemma ComputeKeepsOrder(table: seq<Record>, p: Params)
    ensures IsSubsequence(Compute(table, p).passes, table)
  {
    var rows := Clean(table);
    var ranged := RangeFilter(rows, p.bounds);
    CleanKeepsOrder(table);
    FilterIsSubsequence(table, CleanMask());
    FilterIsSubsequence(rows, RangeMask(p.bounds));
    SubsequenceTransitive(ranged, rows, table);
    CategoricalIsSubsequence(ranged, p.selection);
    SubsequenceTransitive(Compute(table, p).passes, ranged, table);
  }

  /** Sliders set to an inverted range show an empty summary and an empty pitch. */
  lemma InvertedRangeShowsNothing(table: seq<Record>, p: Params)
    requires p.bounds.loObv > p.bounds.hiObv || p.bounds.loPsp > p.bounds.hiPsp
    ensures Compute(table, p).passes == []
    ensures Compute(table, p).summary.total == 0
    ensures Compute(table, p).summary.accuracy == 0.0
    ensures Compute(table, p).arrows == []
  {
    InvertedRangeIsEmpty(Clean(table), p.bounds);
  }

  /**
   * With the sliders where they start, the range selection drops nothing:
   * the passes shown are those the selectors pick from the whole cleaned table.
   */
  lemma DefaultSlidersShowSelection(table: seq<Record>, sel: Selection)
    requires Clean(table) != []
    ensures DefaultBounds(Clean(table)).Some?
    ensures Compute(table, Params(DefaultBounds(Clean(table)).value, sel)).passes
      == Categorical(Clean(table), sel)
  {
    DefaultBoundsKeepAll(Clean(table));
  }

  /** A pass by player P of the given team, with the given outcome and pressure flag. */
  function SamplePass(team: string, outcome: string, pressed: bool): Record
  {
    Record(PassEvent, Some(team), Some("P"), outcome, Some(pressed), Some(0.1), Some(0.8),
           60.0, 40.0, 80.0, 30.0)
  }

  /** Four passes of teams A, A, B, A; the first three complete; pressure flags T, F, T, F. */
  function SampleTable(): seq<Record>
  {
    [SamplePass("A", CompleteLabel, true), SamplePass("A", CompleteLabel, false),
     SamplePass("B", CompleteLabel, true), SamplePass("A", "Incomplete", false)]
  }

  function SampleParams(): Params
  {
    Params(Bounds(-1.0, 1.0, 0.0, 1.0), Selection(Some("A"), Some("P"), Both))
  }

  lemma SampleIsClean()
    ensures Clean(SampleTable()) == SampleTable()
  {
    FilterKeepsAll(SampleTable(), EventIs(PassEvent));
    FilterKeepsAll(SampleTable(), NotMissing);
  }

  lemma SampleIsInRange()
    ensures RangeFilter(SampleTable(), SampleParams().bounds) == SampleTable()
  {
    FilterKeepsAll(SampleTable(), RangeMask(SampleParams().bounds));
  }

  lemma SampleTeamA()
    ensures var t := SampleTable();
      SelectTeamPlayer(t, Some("A"), Some("P")) == [t[0], t[1], t[3]]
  {
    var t := SampleTable();
    FilterOfFour(t[0], t[1], t[2], t[3], TeamPlayerMask(Some("A"), Some("P")));
    assert t == [t[0], t[1], t[2], t[3]];
  }

  /** Choosing team A and its player shows the three passes of team A, in order. */
  lemma SampleSelection()
    ensures var t := SampleTable();
      Compute(t, SampleParams()).passes == [t[0], t[1], t[3]]
  {
    SampleIsClean();
    SampleIsInRange();
    SampleTeamA();
  }

  /**
   * The summary of those three passes: two completed, one incomplete, one
   * under pressure (the other pressed pass belongs to team B), that one
   * completed, and an accuracy of 200/3 %.
   */
  lemma SampleSummary()
    ensures var t := SampleTable();
      Summarize([t[0], t[1], t[3]]) == PassStats(3, 2, 1, 1, 1, 0, 200.0 / 3.0)
  {
    var t := SampleTable();
    FilterOfThree(t[0], t[1], t[3], CompletedMask());
    FilterOfThree(t[0], t[1], t[3], UnderPressure);
    FilterOfThree(t[0], t[1], t[3], And(UnderPressure, CompletedMask()));
  }
}
