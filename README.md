# Liga MX Clausura 2024 pass map — verified model of the selection and statistics logic

The dashboard (`Streamlit_Pases_CL24.py`) loads a table of pass events, narrows it with two range
sliders (net value `obv_for_net`, success probability `pass_success_probability`), a team selectbox,
a player selectbox scoped to that team and a three-way outcome radio ("Ambos", "Pases Completos",
"Pases Incompletos"), prints a summary of counts and an accuracy percentage, and draws one arrow per
selected pass, its width from the net value and its colour from the outcome.

This project models that pipeline as pure Dafny functions over a sequence of rows and proves what
each stage guarantees.

- `wrappers.dfy` — `Option`, used for NaN cells and for unset selectors.
- `lex_order.dfy` — Python's ordering of strings, and the ascending duplicate-free list that
  `sort_values().unique()` yields.
- `pass_table.dfy` — the row type `Record`, the column comparisons as a `Mask` datatype, and
  `Filter`, which models `df[mask]`. The generic facts about selections live here: membership,
  multiplicities, order, partition, conjunction, commutation and idempotence.
- `loader.dfy` — the event-type selection and `dropna` (lines 20 and 23).
- `range_selector.dfy` — the slider defaults (column minimum and maximum) and the closed-interval
  selection.
- `categorical_filter.dfy` — the candidate lists of the two selectboxes, the team/player selection
  and the outcome selection.
- `statistics.dfy` — the summary counts and the guarded accuracy.
- `renderer.dfy` — the width and colour rule of each arrow, and the arrows of a selection.
- `dashboard.dfy` — one run of the whole script, its end-to-end properties, and a worked
  four-pass example.

Semantics kept from the code:

- On a NaN cell every `==`, `>=` and `<=` comparison is false, and `!=` is true. So a row with a
  missing metric is never in range, and a row with a missing team or player matches no selection.
- Comparing a column with an unset selectbox (`None`) is false on every row. So until both a team
  and a player are chosen, nothing is shown (`SelectTeamPlayer`, `Compute`).
- "Pases Incompletos" keeps every outcome label other than `"Complete"`, not only one
  "incomplete" label.
- `max(0.5, abs(obv) * 10)` keeps `0.5` unless the product is greater. A NaN value therefore gives
  width 0.5.

A worked example has four passes: teams A, A, B, A; the first three complete; pressure flags T, F,
T, F. Selecting team A and its player keeps passes 1, 2 and 4. Pass 3 is the other pressed pass,
and it belongs to team B, so only one of the selected passes is under pressure. `SampleSummary`
proves the figures: 3 passes, 2 completed, 1 incomplete, 1 under pressure, 1 of those completed,
and an accuracy of 200/3 %.

## Model

| member | source | states |
|---|---|---|
| `LexOrder.Less` | Streamlit_Pases_CL24.py:44 | the string order: a smaller first character decides, and a proper prefix comes first |
| `LexOrder.LessIrreflexive` | Streamlit_Pases_CL24.py:44-45 | no name sorts before itself |
| `LexOrder.LessAsymmetric` | Streamlit_Pases_CL24.py:44-45 | two names are never each before the other |
| `LexOrder.LessTransitive` | Streamlit_Pases_CL24.py:44-45 | the string order used for sorting is transitive |
| `LexOrder.LessTotal` | Streamlit_Pases_CL24.py:44-45 | any two distinct names are ordered one way or the other |
| `LexOrder.Insert` | Streamlit_Pases_CL24.py:44 | adding a name to an ascending duplicate-free list keeps it ascending and duplicate-free, and its elements become the old ones plus that name |
| `LexOrder.SortedDistinct` | Streamlit_Pases_CL24.py:44 | `sort_values().unique()`: the result is strictly ascending and holds exactly the names of the input |
| `LexOrder.SortedUnique` | Streamlit_Pases_CL24.py:44-45 | two strictly ascending lists with the same elements are equal, so the candidate list is fully determined by the set of names |
| `PassTable.Holds` | Streamlit_Pases_CL24.py:20-57 | a range comparison, a team or player comparison and the pressure comparison are all false on a missing cell, and the `dropna` mask holds only when both metrics are present |
| `PassTable.CompletedMask` | Streamlit_Pases_CL24.py:55-63 | the "Complete" mask holds on a row exactly when its outcome label is "Complete" |
| `PassTable.FilterCount` | Streamlit_Pases_CL24.py:62-66 | the length of a selection is the number of rows on which its mask holds |
| `PassTable.Filter` | Streamlit_Pases_CL24.py:38-41 | `df[mask]` keeps a row if and only if it is in the frame and the mask holds on it, and never grows the frame |
| `PassTable.FilterMultiplicity` | Streamlit_Pases_CL24.py:20-23 | a selection keeps every copy of a row the mask accepts and no copy of one it rejects |
| `PassTable.FilterPartition` | Streamlit_Pases_CL24.py:54-57 | a mask and its complement split the rows: the multisets add up to the input and so do the counts |
| `PassTable.FilterAnd` | Streamlit_Pases_CL24.py:49-52 | selecting with one mask and then another equals selecting once with their `&` |
| `PassTable.FilterAgree` | Streamlit_Pases_CL24.py:38-41 | masks that agree on every row select the same rows |
| `PassTable.FilterKeepsAll` | Streamlit_Pases_CL24.py:38-41 | a mask that holds on every row leaves the frame unchanged |
| `PassTable.FilterKeepsNone` | Streamlit_Pases_CL24.py:38-41 | a mask that holds on no row leaves an empty frame |
| `PassTable.FilterIdempotent` | Streamlit_Pases_CL24.py:54-59 | applying the same selection twice equals applying it once |
| `PassTable.FilterCommutes` | Streamlit_Pases_CL24.py:49-59 | two selections give the same rows in either order |
| `PassTable.FilterNarrower` | Streamlit_Pases_CL24.py:38-41 | a mask implied by another keeps at least as many rows, and the stricter selection is the looser one filtered again |
| `PassTable.FilterEmbeds` | Streamlit_Pases_CL24.py:20 | the selected rows are the input's rows at strictly increasing positions (an order-preserving subsequence) |
| `PassTable.FilterKeepsEveryMatch` | Streamlit_Pases_CL24.py:49-52 | every position whose row satisfies the mask is among the kept positions: no matching row is dropped |
| `PassTable.FilterIsSubsequence` | Streamlit_Pases_CL24.py:38-41 | a selection is a subsequence of its input |
| `PassTable.SubsequenceTransitive` | Streamlit_Pases_CL24.py:20-59 | a subsequence of a subsequence is a subsequence, so chained selections keep table order |
| `Loader.CleanMask` | Streamlit_Pases_CL24.py:20-23 | the loading mask holds exactly on a "Pass" row whose net value, success probability and pressure flag are all present |
| `Loader.Clean` | Streamlit_Pases_CL24.py:20-23 | a row survives loading if and only if it is in the table, its event type is "Pass" and its net value, success probability and pressure flag are all present |
| `Loader.CleanKeepsOrder` | Streamlit_Pases_CL24.py:20-23 | the two loading steps are one conjunctive selection, which keeps table order, drops no qualifying row and keeps every copy of each |
| `RangeSelector.ColumnMin` | Streamlit_Pases_CL24.py:26-28 | `Series.min()`: missing only when every cell is NaN, otherwise a present value that is no greater than any present value |
| `RangeSelector.ColumnMax` | Streamlit_Pases_CL24.py:27-29 | `Series.max()`: missing only when every cell is NaN, otherwise a present value that is no smaller than any present value |
| `RangeSelector.RangeMask` | Streamlit_Pases_CL24.py:38-41 | the range mask holds exactly when both metrics are present and each lies in its closed interval |
| `RangeSelector.DefaultBounds` | Streamlit_Pases_CL24.py:32-35 | the sliders start defined exactly when each metric has a present value; then each low bound is that column's minimum and each high bound its maximum, so low is at most high and every present value lies between them |
| `RangeSelector.RangeFilter` | Streamlit_Pases_CL24.py:38-41 | a row is kept if and only if both metrics are present and lie in their closed intervals |
| `RangeSelector.RangeFilterKeepsOrder` | Streamlit_Pases_CL24.py:38-41 | the range selection is an order-preserving subsequence that drops no in-range row |
| `RangeSelector.InvertedRangeIsEmpty` | Streamlit_Pases_CL24.py:32-41 | a low slider above its high slider, on either metric, selects nothing |
| `RangeSelector.NarrowingNeverAdds` | Streamlit_Pases_CL24.py:38-41 | narrowing either interval gives the wider result filtered again, so the count never increases |
| `RangeSelector.DefaultBoundsKeepAll` | Streamlit_Pases_CL24.py:26-41 | on a non-empty cleaned table the sliders' starting values exist and select every row |
| `CategoricalFilter.Names` | Streamlit_Pases_CL24.py:44-45 | the present names of a column are exactly the names some row carries |
| `CategoricalFilter.TeamCandidates` | Streamlit_Pases_CL24.py:44 | the team choices are strictly ascending, and a name is offered if and only if some range-selected row has that team |
| `CategoricalFilter.PlayerCandidates` | Streamlit_Pases_CL24.py:45 | the player choices are strictly ascending, and a name is offered if and only if a range-selected row of the chosen team has that player; with no team chosen there are none |
| `CategoricalFilter.TeamCandidatesUnique` | Streamlit_Pases_CL24.py:44 | any strictly ascending list of exactly the teams present is the team candidate list |
| `CategoricalFilter.PlayerCandidatesUnique` | Streamlit_Pases_CL24.py:45 | any strictly ascending list of exactly the chosen team's players is the player candidate list |
| `CategoricalFilter.TeamPlayerMask` | Streamlit_Pases_CL24.py:49-52 | the team-and-player mask holds exactly when both selectors are set and the row has that team and that player |
| `CategoricalFilter.SelectTeamPlayer` | Streamlit_Pases_CL24.py:49-52 | an unset team or player selects nothing; otherwise a row is kept if and only if it has exactly that team and that player |
| `CategoricalFilter.OutcomeFilter` | Streamlit_Pases_CL24.py:54-59 | "Ambos" is the identity; "Pases Completos" keeps exactly the rows labelled "Complete"; "Pases Incompletos" keeps exactly the rows with any other label |
| `CategoricalFilter.OutcomePartition` | Streamlit_Pases_CL24.py:54-57 | the completed and incomplete selections partition the rows, as multisets and in count |
| `CategoricalFilter.IncompleteOfAllComplete` | Streamlit_Pases_CL24.py:56-57 | asking for incomplete passes where every pass is complete gives nothing |
| `CategoricalFilter.OutcomeFilterCommutes` | Streamlit_Pases_CL24.py:49-59 | the outcome selection commutes with any other selection |
| `CategoricalFilter.OutcomeFilterIdempotent` | Streamlit_Pases_CL24.py:54-59 | the outcome selection applied twice equals applying it once |
| `CategoricalFilter.Categorical` | Streamlit_Pases_CL24.py:49-59 | a row is kept if and only if it is in the input, both selectors are set, it has the chosen team and player, and its outcome is in the chosen class |
| `CategoricalFilter.CategoricalMultiplicity` | Streamlit_Pases_CL24.py:49-59 | the three selectors keep every copy of a row they pass and no copy of any other row |
| `CategoricalFilter.CategoricalIdempotent` | Streamlit_Pases_CL24.py:49-59 | applying the three selectors twice with the same choices equals applying them once |
| `CategoricalFilter.CategoricalIsSubsequence` | Streamlit_Pases_CL24.py:49-59 | the selectors keep rows in their original order |
| `Statistics.Accuracy` | Streamlit_Pases_CL24.py:68 | 0 for no passes; otherwise accuracy times total equals completed times 100, it lies in [0, 100] when completed is at most total, and it is 100 when every pass is completed |
| `Statistics.PressureCounts` | Streamlit_Pases_CL24.py:65-67 | passes completed under pressure are at most the passes under pressure and at most the completed passes, and the difference is exactly the number of incomplete passes under pressure |
| `Statistics.Summarize` | Streamlit_Pases_CL24.py:62-68 | each figure equals an independent row-by-row count: completed counts the "Complete" rows, incomplete the other rows, under pressure the pressed rows, and the two pressure splits the pressed rows of each class; completed plus incomplete is the total, and accuracy lies in [0, 100] |
| `Statistics.SummaryOfCompleted` | Streamlit_Pases_CL24.py:62-68 | on only completed passes, nothing is incomplete and a non-empty selection is 100 % accurate |
| `Statistics.SummaryOfIncomplete` | Streamlit_Pases_CL24.py:62-68 | on only incomplete passes, nothing is completed and accuracy is 0 |
| `Renderer.ArrowWidth` | Streamlit_Pases_CL24.py:89 | the width is at least 0.5 and at least ten times the absolute net value, and equals one of the two; a NaN value gives 0.5 |
| `Renderer.ArrowWidthMonotone` | Streamlit_Pases_CL24.py:89 | a pass with a larger absolute net value never gets a thinner arrow |
| `Renderer.ArrowColour` | Streamlit_Pases_CL24.py:90 | the arrow is blue exactly when the outcome is "Complete", otherwise red |
| `Renderer.ArrowFor` | Streamlit_Pases_CL24.py:89-98 | an arrow runs from the pass's start to its end location, its width is `ArrowWidth` of the net value (`max(0.5, abs(obv) * 10)`, so at least 0.5), and it is blue exactly when the outcome is "Complete" |
| `Renderer.Arrows` | Streamlit_Pases_CL24.py:86-102 | one arrow per selected pass, in row order, the i-th drawn from the i-th row |
| `Renderer.ArrowsMatchSummary` | Streamlit_Pases_CL24.py:87-90 | the picture agrees with the summary of lines 63-64: blue arrows number the completed passes, red ones the incomplete passes |
| `Dashboard.Compute` | Streamlit_Pases_CL24.py:20-106 | a table row is shown if and only if it is a clean pass, in both ranges, of the chosen team and player, and of the chosen outcome class; each shown row keeps its table multiplicity; the summary is that of the shown passes and the arrows are drawn from them one per pass; an unset team or player shows nothing, with total 0 and accuracy 0 |
| `Dashboard.StagesMultiplicity` | Streamlit_Pases_CL24.py:20-59 | loading, range and selectors together keep every copy of a wanted row and no copy of any other row |
| `Dashboard.ComputeKeepsOrder` | Streamlit_Pases_CL24.py:20-59 | the passes shown are a subsequence of the loaded table |
| `Dashboard.InvertedRangeShowsNothing` | Streamlit_Pases_CL24.py:32-106 | an inverted range shows no passes, total 0, accuracy 0 and no arrows |
| `Dashboard.DefaultSlidersShowSelection` | Streamlit_Pases_CL24.py:26-59 | with the sliders at their starting values, the passes shown are those the selectors pick from the whole cleaned table |
| `Dashboard.SampleSelection` | Streamlit_Pases_CL24.py:20-59 | in the four-pass example, choosing team A and its player shows passes 1, 2 and 4 in that order |
| `Dashboard.SampleSummary` | Streamlit_Pases_CL24.py:62-68 | in the four-pass example the summary is 3 passes, 2 completed, 1 incomplete, 1 under pressure, 1 completed under pressure, 0 incomplete under pressure, accuracy 200/3 % |

## Left out

- Reading the file (`os.chdir`, `pd.read_csv`, lines 14 and 17) is file-system I/O. The loaded
  table is an input sequence of records.
- The Streamlit calls (title, subheader, sidebar sliders, selectboxes, radio, markdown, pyplot)
  are UI. Widget values are parameters (`Params`). The sliders confine each value to the column's
  range; `RangeFilter` accepts any bounds, which covers those values.
- The mplsoccer drawing (`Pitch`, `pitch.draw`, `pitch.arrows`) is a foreign library. Only the
  row-dependent arguments of each `pitch.arrows` call are modelled: coordinates, width and colour.
  The constant arguments (`headwidth`, `alpha`, `zorder`) and the image itself are not.
- Floating point: metrics and accuracy are Dafny `real`s. IEEE rounding and the `:.2f` formatting
  of the accuracy are not modelled.
- `reset_index` only renumbers the index. The model has no index, and row order is what the
  subsequence lemmas state.
- The unused imports `json` and `numpy` have no behaviour to model.
- A NaN team or player name would appear in pandas' candidate list as a trailing NaN entry. The
  candidate lists hold only present names. Choosing that entry matches no row, the same as leaving
  the selector unset, which the model covers.
- `DefaultBounds` returns `None` when a column has no present value: pandas then yields NaN slider
  bounds. What Streamlit does with those is not modelled.
- Outcome and event-type labels are strings. A NaN label is not a separate value. The script's
  masks treat it like any label other than "Complete" (or "Pass"), which a string already covers.
- `under_pressure` is modelled as a boolean column. Other cell types that pandas would compare
  with `True` are not modelled.
