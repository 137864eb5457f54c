/**
 * The team and player selectors, their candidate lists, and the three-way
 * outcome selector.
 */
module CategoricalFilter {
  import opened Wrappers
  import opened PassTable
  import opened LexOrder

  /** The present names of one column, in row order (NaN cells are skipped). */
  function Names(rows: seq<Record>, c: NameColumn): (r: seq<string>)
    ensures forall n :: n in r <==> exists x :: x in rows && NameOf(x, c) == Some(n)
  {
    if |rows| == 0 then []
    else
      assert rows == [rows[0]] + rows[1..];
      var head := match NameOf(rows[0], c) case Some(n) => [n] case None => [];
      head + Names(rows[1..], c)
  }

  /** The team selector's choices: the distinct team names of the range-selected rows, ascending. */
  function TeamCandidates(rows: seq<Record>): (r: seq<string>)
    ensures StrictlySorted(r)
    ensures forall t :: t in r <==> exists x :: x in rows && x.team == Some(t)
  {
    SortedDistinct(Names(rows, TeamName))
  }

  /**
   * The player selector's choices: the distinct player names, ascending, of
   * the rows whose team is the chosen one; none while no team is chosen.
   */
  function PlayerCandidates(rows: seq<Record>, team: Option<string>): (r: seq<string>)
    ensures StrictlySorted(r)
    ensures forall p :: p in r <==>
      exists x :: x in rows && team.Some? && x.team == team && x.player == Some(p)
    ensures team.None? ==> r == []
  {
    var chosen := Filter(rows, TeamIs(team));
    forall x | x in rows && Holds(TeamIs(team), x) ensures x in chosen {}
    var r := SortedDistinct(Names(chosen, PlayerName));
    assert team.None? ==> r == [] by {
      if team.None? {
        FilterKeepsNone(rows, TeamIs(team));
      }
    }
    r
  }

  /** Any ascending, duplicate-free list of exactly the teams present is the team candidate list. */
  lemma TeamCandidatesUnique(rows: seq<Record>, list: seq<string>)
    requires StrictlySorted(list)
    requires forall t :: t in list <==> exists x :: x in rows && x.team == Some(t)
    ensures list == TeamCandidates(rows)
  {
    SortedUnique(list, TeamCandidates(rows));
  }

  /** Any ascending, duplicate-free list of exactly the chosen team's players is the player candidate list. */
  lemma PlayerCandidatesUnique(rows: seq<Record>, team: Option<string>, list: seq<string>)
    requires StrictlySorted(list)
    requires forall p :: p in list <==>
      exists x :: x in rows && team.Some? && x.team == team && x.player == Some(p)
    ensures list == PlayerCandidates(rows, team)
  {
    SortedUnique(list, PlayerCandidates(rows, team));
  }

  /** Which passes the outcome radio button asks for. */
  datatype PassType =
    | Both            // "Ambos"
    | CompleteOnly    // "Pases Completos"
    | IncompleteOnly  // "Pases Incompletos"

  /** The state of the three selectors; an unset selectbox is `None`. */
  datatype Selection = Selection(team: Option<string>, player: Option<string>, passType: PassType)

  /** `(df['team_name'] == team) & (df['player_name'] == player)`. */
  function TeamPlayerMask(team: Option<string>, player: Option<string>): (m: Mask)
    ensures forall x :: Holds(m, x) <==>
      team.Some? && player.Some? && x.team == team && x.player == player
  {
    And(TeamIs(team), PlayerIs(player))
  }

  /**
   * The rows of the chosen team and the chosen player. Comparing a column
   * with an unset selection is false on every row, so an unset team or
   * player selects nothing.
   */
  function SelectTeamPlayer(rows: seq<Record>, team: Option<string>, player: Option<string>): (r: seq<Record>)
    ensures team.None? || player.None? ==> r == []
    ensures forall x :: x in r <==>
      x in rows && team.Some? && player.Some? && x.team == team && x.player == player
  {
    var m := TeamPlayerMask(team, player);
    var r := Filter(rows, m);
    assert team.None? || player.None? ==> r == [] by {
      if team.None? || player.None? {
        FilterKeepsNone(rows, m);
      }
    }
    r
  }

  /** Whether the outcome selector lets a pass with this outcome through. */
  predicate OutcomeWanted(t: PassType, outcome: string)
  {
    match t
    case Both => true
    case CompleteOnly => outcome == CompleteLabel
    case IncompleteOnly => outcome != CompleteLabel
  }

  /** The outcome selection: all rows, the completed ones, or all the others. */
  function OutcomeFilter(rows: seq<Record>, t: PassType): (r: seq<Record>)
    ensures t == Both ==> r == rows
    ensures t == CompleteOnly ==> forall x :: x in r <==> x in rows && x.outcome == CompleteLabel
    ensures t == IncompleteOnly ==> forall x :: x in r <==> x in rows && x.outcome != CompleteLabel
  {
    match t
    case CompleteOnly => Filter(rows, CompletedMask())
    case IncompleteOnly =>
      Filter(rows, Not(CompletedMask()))
    case Both => rows
  }

  /** The completed and the incomplete selections split the rows between them. */
  lemma OutcomePartition(rows: seq<Record>)
    ensures multiset(OutcomeFilter(rows, CompleteOnly)) + multiset(OutcomeFilter(rows, IncompleteOnly))
      == multiset(rows)
    ensures |OutcomeFilter(rows, CompleteOnly)| + |OutcomeFilter(rows, IncompleteOnly)| == |rows|
  {
    FilterPartition(rows, CompletedMask());
  }

  /** Asking for incomplete passes where every pass is complete gives nothing. */
  lemma IncompleteOfAllComplete(rows: seq<Record>)
    requires forall x :: x in rows ==> x.outcome == CompleteLabel
    ensures OutcomeFilter(rows, IncompleteOnly) == []
  {
    FilterKeepsNone(rows, Not(CompletedMask()));
  }

  /** The outcome selection is one more mask (or none, for `Both`). */
  lemma OutcomeFilterCommutes(rows: seq<Record>, t: PassType, m: Mask)
    ensures OutcomeFilter(Filter(rows, m), t) == Filter(OutcomeFilter(rows, t), m)
  {
    match t
    case CompleteOnly => FilterCommutes(rows, m, CompletedMask());
    case IncompleteOnly => FilterCommutes(rows, m, Not(CompletedMask()));
    case Both =>
  }

  lemma OutcomeFilterIdempotent(rows: seq<Record>, t: PassType)
    ensures OutcomeFilter(OutcomeFilter(rows, t), t) == OutcomeFilter(rows, t)
  {
    match t
    case CompleteOnly => FilterIdempotent(rows, CompletedMask());
    case IncompleteOnly => FilterIdempotent(rows, Not(CompletedMask()));
    case Both =>
  }

  /** The team, player and outcome selections, in the script's order. */
  function Categorical(rows: seq<Record>, sel: Selection): (r: seq<Record>)
    ensures forall x :: x in r <==>
      && x in rows
      && sel.team.Some? && x.team == sel.team
      && sel.player.Some? && x.player == sel.player
      && OutcomeWanted(sel.passType, x.outcome)
  {
    OutcomeFilter(SelectTeamPlayer(rows, sel.team, sel.player), sel.passType)
  }

  /**
   * The selectors keep every copy of a row they pass and no copy of any
   * other row.
   */
  lemma CategoricalMultiplicity(rows: seq<Record>, sel: Selection, x: Record)
    ensures multiset(Categorical(rows, sel))[x] ==
      if && sel.team.Some? && x.team == sel.team
         && sel.player.Some? && x.player == sel.player
         && OutcomeWanted(sel.passType, x.outcome)
      then multiset(rows)[x] else 0
  {
    var chosen := SelectTeamPlayer(rows, sel.team, sel.player);
    FilterMultiplicity(rows, TeamPlayerMask(sel.team, sel.player), x);
    match sel.passType
    case CompleteOnly => FilterMultiplicity(chosen, CompletedMask(), x);
    case IncompleteOnly => FilterMultiplicity(chosen, Not(CompletedMask()), x);
    case Both =>
  }

  /** Applying the selectors a second time with the same choices changes nothing. */
  lemma CategoricalIdempotent(rows: seq<Record>, sel: Selection)
    ensures Categorical(Categorical(rows, sel), sel) == Categorical(rows, sel)
  {
    var m := TeamPlayerMask(sel.team, sel.player);
    var once := Categorical(rows, sel);
    calc {
      Categorical(once, sel);
      OutcomeFilter(Filter(OutcomeFilter(Filter(rows, m), sel.passType), m), sel.passType);
      { OutcomeFilterCommutes(Filter(rows, m), sel.passType, m); }
      OutcomeFilter(OutcomeFilter(Filter(Filter(rows, m), m), sel.passType), sel.passType);
      { FilterIdempotent(rows, m); }
      OutcomeFilter(OutcomeFilter(Filter(rows, m), sel.passType), sel.passType);
      { OutcomeFilterIdempotent(Filter(rows, m), sel.passType); }
      once;
    }
  }

  /** The three selectors keep the rows they pass in their original order. */
  lemma CategoricalIsSubsequence(rows: seq<Record>, sel: Selection)
    ensures IsSubsequence(Categorical(rows, sel), rows)
  {
    var chosen := SelectTeamPlayer(rows, sel.team, sel.player);
    FilterIsSubsequence(rows, TeamPlayerMask(sel.team, sel.player));
    match sel.passType
    case CompleteOnly =>
      FilterIsSubsequence(chosen, CompletedMask());
      SubsequenceTransitive(Categorical(rows, sel), chosen, rows);
    case IncompleteOnly =>
      FilterIsSubsequence(chosen, Not(CompletedMask()));
      SubsequenceTransitive(Categorical(rows, sel), chosen, rows);
    case Both =>
  }
}
