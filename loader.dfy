/** Loading the table: keep the passes and drop rows with a missing required value. */
module Loader {
  import opened PassTable

  /** The loader's two selections as one mask. */
  function CleanMask(): (m: Mask)
    ensures forall x :: Holds(m, x) <==>
      && x.eventType == PassEvent
      && x.obvForNet.Some? && x.passSuccessProbability.Some? && x.underPressure.Some?
  {
    And(EventIs(PassEvent), NotMissing)
  }

  /**
   * The rows left after the event-type selection and `dropna` on
   * `obv_for_net`, `pass_success_probability` and `under_pressure`: exactly
   * the passes of the table whose three required cells are all present.
   */
  function Clean(table: seq<Record>): (rows: seq<Record>)
    ensures forall x :: x in rows <==>
      && x in table
      && x.eventType == PassEvent
      && x.obvForNet.Some?
      && x.passSuccessProbability.Some?
      && x.underPressure.Some?
    ensures |rows| <= |table|
  {
    Filter(Filter(table, EventIs(PassEvent)), NotMissing)
  }

  /**
   * Cleaning keeps the surviving rows in table order, with every copy of
   * each, and drops no row that qualifies.
   */
  lemma CleanKeepsOrder(table: seq<Record>)
    ensures Clean(table) == Filter(table, CleanMask())
    ensures Embeds(Clean(table), table, KeptIndices(table, CleanMask()))
    ensures forall i :: 0 <= i < |table| && Holds(CleanMask(), table[i]) ==>
      i in KeptIndices(table, CleanMask())
    ensures forall x ::
      multiset(Clean(table))[x] == if Holds(CleanMask(), x) then multiset(table)[x] else 0
  {
    FilterAnd(table, EventIs(PassEvent), NotMissing);
    FilterEmbeds(table, CleanMask());
    forall i | 0 <= i < |table| && Holds(CleanMask(), table[i])
      ensures i in KeptIndices(table, CleanMask())
    {
      FilterKeepsEveryMatch(table, CleanMask(), i);
    }
    forall x
      ensures multiset(Clean(table))[x] == if Holds(CleanMask(), x) then multiset(table)[x] else 0
    {
      FilterMultiplicity(table, CleanMask(), x);
    }
  }
}
