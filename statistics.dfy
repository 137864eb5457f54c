/** The summary block: pass counts and the completion percentage. */
module Statistics {
  import opened PassTable

  datatype PassStats = PassStats(
    total: int,
    completed: int,
    incomplete: int,
    underPressure: int,
    underPressureCompleted: int,
    underPressureIncomplete: int,
    accuracy: real)

  /**
   * `completed / total * 100` when there is at least one pass, else 0: the
   * share of completed passes as a percentage.
   */
  function Accuracy(completed: int, total: int): (a: real)
    ensures total == 0 ==> a == 0.0
    ensures total > 0 ==> a * (total as real) == (completed as real) * 100.0
    ensures 0 <= completed <= total ==> 0.0 <= a <= 100.0
    ensures 0 < completed == total ==> a == 100.0
  {
    if total > 0 then
      var share := (completed as real) / (total as real);
      assert share * (total as real) == completed as real;
      assert 0 <= completed <= total ==> 0.0 <= share <= 1.0;
      share * 100.0
    else
      0.0
  }

  /** How the pressure counts relate to each other and to the completed count. */
  lemma PressureCounts(s: seq<Record>)
    ensures |Filter(s, And(UnderPressure, CompletedMask()))| <= |Filter(s, UnderPressure)|
    ensures |Filter(s, And(UnderPressure, CompletedMask()))| <= |Filter(s, CompletedMask())|
    ensures |Filter(s, UnderPressure)| - |Filter(s, And(UnderPressure, CompletedMask()))|
      == |Filter(s, And(UnderPressure, Not(CompletedMask())))|
  {
    var pressed := Filter(s, UnderPressure);
    FilterPartition(pressed, CompletedMask());
    FilterAnd(s, UnderPressure, CompletedMask());
    FilterAnd(s, UnderPressure, Not(CompletedMask()));
    FilterNarrower(s, And(UnderPressure, CompletedMask()), CompletedMask());
  }

  /**
   * The counts the script displays, each taken as `len` of a selection, with
   * the two "incomplete" counts obtained by subtraction, and the accuracy
   * guarded against an empty selection.
   */
  function Summarize(s: seq<Record>): (st: PassStats)
    ensures st.total == |s|
    ensures st.completed == Count(s, CompletedMask())
    ensures st.underPressure == Count(s, UnderPressure)
    ensures st.underPressureCompleted == Count(s, And(UnderPressure, CompletedMask()))
    ensures 0 <= st.completed <= st.total
    ensures st.completed + st.incomplete == st.total
    ensures st.incomplete == Count(s, Not(CompletedMask()))
    ensures 0 <= st.underPressureCompleted <= st.underPressure <= st.total
    ensures st.underPressureCompleted <= st.completed
    ensures st.underPressureIncomplete == st.underPressure - st.underPressureCompleted
    ensures st.underPressureIncomplete == Count(s, And(UnderPressure, Not(CompletedMask())))
    ensures st.accuracy == Accuracy(st.completed, st.total)
    ensures 0.0 <= st.accuracy <= 100.0
  {
    var total := |s|;
    var completed := |Filter(s, CompletedMask())|;
    var underPressure := |Filter(s, UnderPressure)|;
    var underPressureCompleted := |Filter(s, And(UnderPressure, CompletedMask()))|;
    FilterPartition(s, CompletedMask());
    PressureCounts(s);
    FilterCount(s, CompletedMask());
    FilterCount(s, UnderPressure);
    FilterCount(s, And(UnderPressure, CompletedMask()));
    FilterCount(s, Not(CompletedMask()));
    FilterCount(s, And(UnderPressure, Not(CompletedMask())));
    PassStats(total, completed, total - completed, underPressure, underPressureCompleted,
              underPressure - underPressureCompleted, Accuracy(completed, total))
  }

  /** With only completed passes selected, nothing is incomplete and a non-empty selection is 100% accurate. */
  lemma SummaryOfCompleted(s: seq<Record>)
    requires forall x :: x in s ==> x.outcome == CompleteLabel
    ensures Summarize(s).completed == Summarize(s).total
    ensures Summarize(s).incomplete == 0
    ensures Summarize(s).total > 0 ==> Summarize(s).accuracy == 100.0
  {
    FilterKeepsAll(s, CompletedMask());
  }

  /** With only incomplete passes selected, nothing is completed and accuracy is 0. */
  lemma SummaryOfIncomplete(s: seq<Record>)
    requires forall x :: x in s ==> x.outcome != CompleteLabel
    ensures Summarize(s).completed == 0
    ensures Summarize(s).incomplete == Summarize(s).total
    ensures Summarize(s).accuracy == 0.0
  {
    FilterKeepsNone(s, CompletedMask());
  }
}
