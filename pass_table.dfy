/**
 * The pass table and the boolean masks the dashboard selects rows with.
 * Every selection in the script has the form `df[mask]`: it keeps, in row
 * order, the rows for which the mask is true and builds a new frame without
 * touching the old one. `Filter` is that operation; the lemmas below are the
 * facts about it that every stage of the pipeline relies on.
 */
module PassTable {
  import opened Wrappers

  /** Value of `event_type_name` that marks a pass. */
  const PassEvent: string := "Pass"
  /** Value of `outcome_name` that marks a completed pass. */
  const CompleteLabel: string := "Complete"

  /**
   * One row of `df_pass.csv`. Columns that may hold NaN and that the script
   * tests for it, or compares by value, are `Option`s (`None` is NaN).
   */
  datatype Record = Record(
    eventType: string,
    team: Option<string>,
    player: Option<string>,
    outcome: string,
    underPressure: Option<bool>,
    obvForNet: Option<real>,
    passSuccessProbability: Option<real>,
    locationX: real,
    locationY: real,
    endLocationX: real,
    endLocationY: real)

  /** The two numeric columns the range sliders act on. */
  datatype Metric = ObvForNet | PassSuccessProbability

  function MetricOf(x: Record, c: Metric): Option<real>
  {
    match c
    case ObvForNet => x.obvForNet
    case PassSuccessProbability => x.passSuccessProbability
  }

  /** The two name columns the selectors act on. */
  datatype NameColumn = TeamName | PlayerName

  function NameOf(x: Record, c: NameColumn): Option<string>
  {
    match c
    case TeamName => x.team
    case PlayerName => x.player
  }

  /** The column comparisons the script combines with `&`. */
  datatype Mask =
    | EventIs(name: string)                       // df['event_type_name'] == name
    | NotMissing                                  // the row survives dropna on the three columns
    | Within(metric: Metric, lo: real, hi: real)  // (df[c] >= lo) & (df[c] <= hi)
    | TeamIs(team: Option<string>)                // df['team_name'] == team
    | PlayerIs(player: Option<string>)            // df['player_name'] == player
    | OutcomeIs(expected: string)                 // df['outcome_name'] == expected
    | UnderPressure                               // df['under_pressure'] == True
    | Not(inner: Mask)                            // the complementary comparison
    | And(left: Mask, right: Mask)                // left & right

  /**
   * The value of a mask on one row. On a NaN cell every `==`, `>=` and `<=`
   * comparison is false and `!=` is true; comparing a column with an unset
   * (`None`) selection is false on every row.
   */
  predicate Holds(m: Mask, x: Record)
    ensures m.Within? && MetricOf(x, m.metric).None? ==> !Holds(m, x)
    ensures m.TeamIs? && (m.team.None? || x.team.None?) ==> !Holds(m, x)
    ensures m.PlayerIs? && (m.player.None? || x.player.None?) ==> !Holds(m, x)
    ensures m.UnderPressure? && x.underPressure.None? ==> !Holds(m, x)
    ensures m.NotMissing? && Holds(m, x) ==> MetricOf(x, ObvForNet).Some? && MetricOf(x, PassSuccessProbability).Some?
  {
    match m
    case EventIs(name) => x.eventType == name
    case NotMissing =>
      x.obvForNet.Some? && x.passSuccessProbability.Some? && x.underPressure.Some?
    case Within(c, lo, hi) =>
      MetricOf(x, c).Some? && lo <= MetricOf(x, c).value <= hi
    case TeamIs(t) => t.Some? && x.team == t
    case PlayerIs(p) => p.Some? && x.player == p
    case OutcomeIs(expected) => x.outcome == expected
    case UnderPressure => x.underPressure == Some(true)
    case Not(a) => !Holds(a, x)
    case And(a, b) => Holds(a, x) && Holds(b, x)
  }

  /** The "Complete" outcome test, shared by the outcome selector, the summary and the arrows. */
  function CompletedMask(): (m: Mask)
    ensures forall x :: Holds(m, x) <==> x.outcome == CompleteLabel
  {
    OutcomeIs(CompleteLabel)
  }

  /** `df[mask]`: the rows on which `m` holds, in their original order. */
  function Filter(s: seq<Record>, m: Mask): (r: seq<Record>)
    ensures |r| <= |s|
    ensures forall x {:trigger x in r} :: x in r <==> x in s && Holds(m, x)
  {
    if |s| == 0 then []
    else if Holds(m, s[0]) then [s[0]] + Filter(s[1..], m)
    else Filter(s[1..], m)
  }

  /** The number of rows on which `m` holds, counted one row at a time. */
  function Count(s: seq<Record>, m: Mask): nat
  {
    if |s| == 0 then 0 else (if Holds(m, s[0]) then 1 else 0) + Count(s[1..], m)
  }

  /** `len(df[mask])` is the number of rows on which the mask holds. */
  lemma {:induction false} FilterCount(s: seq<Record>, m: Mask)
    ensures |Filter(s, m)| == Count(s, m)
  {
    if |s| > 0 {
      FilterCount(s[1..], m);
    }
  }

  /** `Filter` one row at a time, for concrete tables. */
  lemma FilterCons(x: Record, s: seq<Record>, m: Mask)
    ensures Filter([x] + s, m) == if Holds(m, x) then [x] + Filter(s, m) else Filter(s, m)
  {
    assert ([x] + s)[1..] == s;
  }

  /** The rows of a one-row frame that `m` keeps. */
  function Kept(m: Mask, x: Record): seq<Record>
  {
    if Holds(m, x) then [x] else []
  }

  lemma FilterOfThree(a: Record, b: Record, c: Record, m: Mask)
    ensures Filter([a, b, c], m) == Kept(m, a) + Kept(m, b) + Kept(m, c)
  {
    FilterCons(c, [], m);
    FilterCons(b, [c], m);
    FilterCons(a, [b, c], m);
    assert [a, b, c] == [a] + [b, c] && [b, c] == [b] + [c];
  }

  lemma FilterOfFour(a: Record, b: Record, c: Record, d: Record, m: Mask)
    ensures Filter([a, b, c, d], m) == Kept(m, a) + Kept(m, b) + Kept(m, c) + Kept(m, d)
  {
    var tail := [b, c, d];
    assert [a, b, c, d] == [a] + tail;
    FilterCons(a, tail, m);
    FilterOfThree(b, c, d, m);
    assert Filter([a, b, c, d], m) == Kept(m, a) + Filter(tail, m);
  }

  /** A kept row keeps all its copies; a dropped row keeps none. */
  lemma {:induction false} FilterMultiplicity(s: seq<Record>, m: Mask, x: Record)
    ensures multiset(Filter(s, m))[x] == if Holds(m, x) then multiset(s)[x] else 0
  {
    if |s| > 0 {
      FilterMultiplicity(s[1..], m, x);
      assert s == [s[0]] + s[1..];
    }
  }

  /** A mask and its complement split the rows between them. */
  lemma {:induction false} FilterPartition(s: seq<Record>, m: Mask)
    ensures multiset(Filter(s, m)) + multiset(Filter(s, Not(m))) == multiset(s)
    ensures |Filter(s, m)| + |Filter(s, Not(m))| == |s|
  {
    if |s| > 0 {
      FilterPartition(s[1..], m);
      assert s == [s[0]] + s[1..];
    }
  }

  /** Selecting with `a` and then with `b` is selecting with `a & b`. */
  lemma {:induction false} FilterAnd(s: seq<Record>, a: Mask, b: Mask)
    ensures Filter(Filter(s, a), b) == Filter(s, And(a, b))
  {
    if |s| > 0 {
      FilterAnd(s[1..], a, b);
      if Holds(a, s[0]) {
        var t := Filter(s[1..], a);
        assert ([s[0]] + t)[0] == s[0] && ([s[0]] + t)[1..] == t;
      }
    }
  }

  /** Masks that agree on every row of `s` select the same rows of it. */
  lemma {:induction false} FilterAgree(s: seq<Record>, a: Mask, b: Mask)
    requires forall x :: x in s ==> (Holds(a, x) <==> Holds(b, x))
    ensures Filter(s, a) == Filter(s, b)
  {
    if |s| > 0 {
      assert forall x :: x in s[1..] ==> x in s;
      FilterAgree(s[1..], a, b);
    }
  }

  /** A mask that holds on every row keeps the frame as it is. */
  lemma {:induction false} FilterKeepsAll(s: seq<Record>, m: Mask)
    requires forall x :: x in s ==> Holds(m, x)
    ensures Filter(s, m) == s
  {
    if |s| > 0 {
      assert forall x :: x in s[1..] ==> x in s;
      FilterKeepsAll(s[1..], m);
      assert s == [s[0]] + s[1..];
    }
  }

  /** A mask that holds on no row leaves an empty frame. */
  lemma {:induction false} FilterKeepsNone(s: seq<Record>, m: Mask)
    requires forall x :: x in s ==> !Holds(m, x)
    ensures Filter(s, m) == []
  {
    if |s| > 0 {
      assert forall x :: x in s[1..] ==> x in s;
      FilterKeepsNone(s[1..], m);
    }
  }

  lemma FilterIdempotent(s: seq<Record>, m: Mask)
    ensures Filter(Filter(s, m), m) == Filter(s, m)
  {
    FilterKeepsAll(Filter(s, m), m);
  }

  /** Two selections may be applied in either order. */
  lemma FilterCommutes(s: seq<Record>, a: Mask, b: Mask)
    ensures Filter(Filter(s, a), b) == Filter(Filter(s, b), a)
  {
    FilterAnd(s, a, b);
    FilterAnd(s, b, a);
    FilterAgree(s, And(a, b), And(b, a));
  }

  /**
   * When `a` implies `b` on the rows of `s`, selecting with `a` is selecting
   * with `b` first and then with `a`, and keeps no more rows than `b` does.
   */
  lemma FilterNarrower(s: seq<Record>, a: Mask, b: Mask)
    requires forall x :: x in s && Holds(a, x) ==> Holds(b, x)
    ensures Filter(s, a) == Filter(Filter(s, b), a)
    ensures |Filter(s, a)| <= |Filter(s, b)|
  {
    FilterAnd(s, b, a);
    FilterAgree(s, a, And(b, a));
  }

  /**
   * `idx` lists, in increasing order, the positions in `b` that `a` was taken
   * from: `a` is an order-preserving subsequence of `b`.
   */
  ghost predicate Embeds(a: seq<Record>, b: seq<Record>, idx: seq<int>)
  {
    && |idx| == |a|
    && (forall k :: 0 <= k < |idx| ==> 0 <= idx[k] < |b| && a[k] == b[idx[k]])
    && (forall k, l :: 0 <= k < l < |idx| ==> idx[k] < idx[l])
  }

  ghost predicate IsSubsequence(a: seq<Record>, b: seq<Record>)
  {
    exists idx :: Embeds(a, b, idx)
  }

  lemma SubsequenceTransitive(a: seq<Record>, b: seq<Record>, c: seq<Record>)
    requires IsSubsequence(a, b) && IsSubsequence(b, c)
    ensures IsSubsequence(a, c)
  {
    var i1 :| Embeds(a, b, i1);
    var i2 :| Embeds(b, c, i2);
    var i3 := seq(|i1|, k requires 0 <= k < |i1| => i2[i1[k]]);
    assert Embeds(a, c, i3);
  }

  /** Positions in `s[1..]` as positions in `s`. */
  function ShiftUp(idx: seq<int>): (r: seq<int>)
    ensures |r| == |idx|
    ensures forall k :: 0 <= k < |idx| ==> r[k] == idx[k] + 1
  {
    seq(|idx|, k requires 0 <= k < |idx| => idx[k] + 1)
  }

  lemma EmbedsInTail(a: seq<Record>, s: seq<Record>, idx: seq<int>)
    requires |s| > 0 && Embeds(a, s[1..], idx)
    ensures Embeds(a, s, ShiftUp(idx))
    ensures Embeds([s[0]] + a, s, [0] + ShiftUp(idx))
  {
    var up := ShiftUp(idx);
    forall k | 0 <= k < |up| ensures 0 <= up[k] < |s| && a[k] == s[up[k]] {
      assert s[1..][idx[k]] == s[idx[k] + 1];
    }
    var a', up' := [s[0]] + a, [0] + up;
    forall k | 0 < k < |up'| ensures 0 <= up'[k] < |s| && a'[k] == s[up'[k]] {
      assert up'[k] == up[k - 1] && a'[k] == a[k - 1];
    }
  }

  /** The positions of the rows `Filter(s, m)` keeps. */
  function KeptIndices(s: seq<Record>, m: Mask): seq<int>
  {
    if |s| == 0 then []
    else if Holds(m, s[0]) then [0] + ShiftUp(KeptIndices(s[1..], m))
    else ShiftUp(KeptIndices(s[1..], m))
  }

  /** The selection keeps its rows in their original order. */
  lemma {:induction false} FilterEmbeds(s: seq<Record>, m: Mask)
    ensures Embeds(Filter(s, m), s, KeptIndices(s, m))
  {
    if |s| > 0 {
      FilterEmbeds(s[1..], m);
      EmbedsInTail(Filter(s[1..], m), s, KeptIndices(s[1..], m));
    }
  }

  /** Every row on which the mask holds is among the kept ones: none is dropped. */
  lemma {:induction false} FilterKeepsEveryMatch(s: seq<Record>, m: Mask, i: int)
    requires 0 <= i < |s| && Holds(m, s[i])
    ensures i in KeptIndices(s, m)
  {
    if i > 0 {
      assert s[1..][i - 1] == s[i];
      FilterKeepsEveryMatch(s[1..], m, i - 1);
      var rest := KeptIndices(s[1..], m);
      var k :| 0 <= k < |rest| && rest[k] == i - 1;
      assert ShiftUp(rest)[k] == i;
    }
  }

  lemma FilterIsSubsequence(s: seq<Record>, m: Mask)
    ensures IsSubsequence(Filter(s, m), s)
  {
    FilterEmbeds(s, m);
  }
}
