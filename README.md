# NHL Magic/Tragic standings: the standings arithmetic

`main.py` fetches the NHL standings feed and draws one horizontal bar chart
per division. Its arithmetic sits in `do_update`. This project models that
arithmetic in Dafny and proves properties of it:

* **Team-record derivation** (`Records`). One nested loop goes over the
  feed's division records. It appends every team name to its division's
  list. It fills a per-team table with points `pts`, games played `gp`,
  points not played `pnp = 2 * (56 - gp)`, possible points `pp = pts + pnp`
  and last-ten points `l10pts = 2 * wins + ot` taken from the team's
  `"lastTen"` record. The loop is `DeriveRecords`, and its body is
  `AddTeamRecord`. `DeriveRecords` is proved equal to the fold `Build` of
  `Step` over the feed entries, and `AddTeamRecord` to a single `Step`. The lemmas about `Build` state what
  the pass promises.
* **Per-division lines** (`Sorting`, `Standings`). Each division's names are
  sorted stably by ascending points (`SortBy`, an insertion sort matching
  Python's stable `sorted`). The element at index `-4` gives the points line.
  The same is done with possible points. `FourthFromTop` is proved to return
  the 4th-largest key: at most three names have more, and at least four
  reach it. A division with fewer than four names raises `IndexError`.
* **Axis range** (`Standings.ScanAxis`). A loop starts from 9999 and 0 and
  computes min(9999, least `pts`) and max(0, greatest `pp`). The figure's x-axis is
  `[minPts - 1, maxPts + 1]` with a tick spacing of 2.
* `Standings.DoUpdate` puts the three together. The first exception raised
  ends the update, as it does in Python.

The exceptions modelled are values of `Outcomes.Exception`:
* `ZeroDivisionError`: the season pace on line 35 divides by `gp`.
* `KeyError`: the last-ten pace on lines 39-40 reads `l10pts` before any
  `"lastTen"` record set it.
* `IndexError`: a division lists fewer than four names at line 121.

A team whose name appears again keeps its dictionary. Its integer fields
are overwritten, but its `l10pts` survives when the new record has no
`"lastTen"` entry. `BuildLastRecordWins` states which value a team ends
with: that record's last-ten points, or otherwise the value the team had
just before its last record. `BuildSucceedsIff` states exactly when the
`KeyError` is raised.

## Model

| member | source | states |
|---|---|---|
| `Sorting.SortBy` | main.py:56 | `sorted` returns the division's names rearranged (same multiset and length) in ascending key order |
| `Sorting.SortByIsStable` | main.py:56 | names with equal keys keep their input order after the sort (stability) |
| `Sorting.FourthFromTop` | main.py:121 | `sorted(...)[-4]` exists exactly when there are at least 4 names, and otherwise raises `IndexError`; its key is the 4th-largest: at most 3 names have a larger key, and at least 4 have one at least as large |
| `Sorting.FourthLargestIsUnique` | main.py:121 | those two counting conditions fix the 4th-largest value uniquely |
| `Sorting.FourthLargestMonotone` | main.py:121-123 | under a pointwise larger key, the 4th-largest value is at least as large |
| `Sorting.FourthFromTopMonotone` | main.py:121-123 | the same for the `[-4]` read of two sorts of the same names |
| `Records.PointsNotPlayed` | main.py:33 | `pnp` is even, non-negative exactly when `gp <= 56`, and zero exactly at `gp = 56` |
| `Records.Refreshed` | main.py:31-34 | the refreshed entry keeps `pts` and `gp` from the record and `pp = pts + pnp`, so `pp >= pts` exactly when `gp <= 56`; `l10pts` is kept from before |
| `Records.LastTenPointsWithoutRecord` | main.py:36-38 | with no `"lastTen"` record the scan leaves `l10pts` as it was |
| `Records.LastTenPointsFromLastRecord` | main.py:36-38 | otherwise `l10pts` is `2 * wins + ot` of the last `"lastTen"` record |
| `Records.LastTenPointsOverridesPrior` | main.py:36-38 | when a `"lastTen"` record exists, the earlier value of `l10pts` does not matter |
| `Records.LastTenPointsDefined` | main.py:36-40 | `l10pts` is set after the scan exactly when a `"lastTen"` record exists or it was set before, which decides the `KeyError` on line 40 |
| `Records.ScanLastTen` | main.py:36-38 | the loop over `overallRecords` computes the same value as the scan specification |
| `Records.AddTeamRecord` | main.py:29-40 | one iteration appends the name, refreshes the team's fields, raises `ZeroDivisionError` when `gp = 0`, rescans `l10pts` and raises `KeyError` if it is still unset |
| `Records.DeriveRecords` | main.py:25-40 | the nested loop yields the same two dictionaries and the same exception as the fold over all feed entries in order, stopping at the first exception |
| `Records.StepKeepsConsistent` | main.py:29-34 | one iteration keeps every stats entry well formed (`pnp = 2 * (56 - gp)`, `pp = pts + pnp`) and every listed name in the team table, even when it raises |
| `Records.BuildKeepsConsistent` | main.py:25-34 | the same holds after the whole pass |
| `Records.BuildListsNamesInFeedOrder` | main.py:27-30 | after a pass that raises nothing, each division's list holds the names recorded under it in feed order, repeats included |
| `Records.BuildTeamKeys` | main.py:27-31 | after a pass that raises nothing, the team table has exactly the names in the feed |
| `Records.BuildDivisionKeys` | main.py:27-30 | after a pass that raises nothing, the division table has exactly the divisions that some team record is listed under, so with `BuildListsNamesInFeedOrder` every division that gets lines (or raises `IndexError` in `CutoffLines`) has at least one team record; a division record with no team records gets neither |
| `Records.BuildSetsLastTen` | main.py:36-40 | after a pass that raises nothing, every team's `l10pts` is set |
| `Records.BuildLastRecordWins` | main.py:29-38 | a team named more than once ends with the points, games played and possible points of its last record; its `l10pts` is that record's last-ten points when it has a `"lastTen"` record, and otherwise the value the team had before that record |
| `Records.BuildSucceedsIff` | main.py:35-40 | the pass raises nothing exactly when no record has `gp = 0` and every record has a `"lastTen"` record or follows an earlier record of the same team |
| `Records.BuildKeepsGamesInSeason` | main.py:32 | if no record has more than 56 games played, no team in the table does |
| `Standings.DivisionCutoffs` | main.py:56-123 | one division's bars are its names sorted ascending by points; the lines are the 4th-largest points and 4th-largest possible points; fewer than 4 names raises `IndexError` |
| `Standings.SortedTeamsKeepFeedOrder` | main.py:56 | teams with equal points appear in the bars in feed order |
| `Standings.PossibleLineNotBelowPointsLine` | main.py:121-123 | when every team in the division has `gp <= 56`, the possible-points line is at least the points line |
| `Standings.CutoffLines` | main.py:55-124 | the loop over the divisions raises `IndexError` exactly when some division has fewer than 4 names, and otherwise draws lines for every division; with `Records.BuildDivisionKeys`, lines exist exactly for the divisions that some team record is listed under (`Records.DivisionNames`) |
| `Standings.LinesOrdered` | main.py:121-123 | over well-formed tables within the season, every division's possible-points line is at least its points line |
| `Standings.LinesOrderedInFigure` | main.py:25-123 | the same holds for every figure derived from a feed whose records all have `gp <= 56` |
| `Standings.ScanAxis` | main.py:126-134 | `minPts` is at most every team's points and at most 9999, and it equals some team's points unless it is 9999; `maxPts` is at least every team's possible points and at least 0, and it equals some team's possible points unless it is 0; when some team has fewer than 9999 points, `minPts` is the true minimum |
| `Standings.ScanBoundsAreUnique` | main.py:126-134 | those bounds are determined by the team table alone, whatever the order of the scan |
| `Standings.DoUpdate` | main.py:18-136 | the update raises the derivation's exception if there is one, then `IndexError` for a too-small division; otherwise the figure carries the lines of every division that some team record is listed under (`Records.DivisionNames`, `Records.BuildDivisionKeys`), tick spacing 2 and the axis range `[minPts - 1, maxPts + 1]` from the scan |

## Left out

- The HTTP request and JSON decoding (main.py:19-20) are not modelled. The feed arrives as a value of `Records.DivisionRecord`, keeping only the fields the arithmetic reads.
- The global copyright string (main.py:22-23) only feeds the HTML footer.
- The season pace and last-ten pace values (main.py:35, main.py:39-40) are floating point and are not computed. Only the exceptions they raise are modelled: `ZeroDivisionError` when `gp = 0`, and `KeyError` when `l10pts` was never set.
- All plotly figure and trace construction is left out: bar colours, hover text, subplot titles, and the row order of the divisions (main.py:42-120, main.py:135 apart from the range and the tick). The row order follows the dictionary's insertion order and affects only the drawing.
- The HTML page, the markdown conversion, the timezone formatting and the file writing in `main` (main.py:139-180) are I/O and templating.
- Standings.ScanAxis: visits the teams in an order it chooses instead of the dictionary's insertion order. The minimum and maximum do not depend on the order.
- Standings.PointsKey and Standings.PossiblePointsKey give 0 for a name missing from the team table. Python would raise `KeyError` there. This never happens, because every listed name is in the table (`Records.BuildKeepsConsistent`).
- Standings.DivisionCutoffs: reads the points line from a second sort of the same names instead of reusing `sorted_teams`. The sort is a function of its input, so the value is the same.
- Standings.DoUpdate: does not raise plotly's `ValueError` for a feed with no team records. `set_subplots(rows=0, ...)` at main.py:53 would reject it, but plotly is not part of this model, so the model returns an empty figure with the axis range `[9998, 1]`.
- Records.BuildSucceedsIff: does not model Python's float conversion on lines 35 and 40. A points or games value too large for a float raises `OverflowError` in `float()`. For such a value the model raises `ZeroDivisionError`, `KeyError` or nothing, so its "exactly when" holds only for values that fit in a float.
