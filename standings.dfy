/**
 * What `do_update` derives from the tables for its figure: per division the
 * bar order and the two vertical lines (4th-from-top points and possible
 * points), and the x-axis range from a scan over all teams.
 */
module Standings {
  import opened Outcomes
  import opened Sorting
  import opened Records

  /** Starting values of the axis scan, and the fixed tick spacing. */
  const MinPtsStart := 9999
  const MaxPtsStart := 0
  const TickSpacing := 2

  /** One division's bars, in ascending points order, and its two lines. */
  datatype DivisionLines = DivisionLines(sortedTeams: seq<string>, pointsLine: int, possiblePointsLine: int)

  /** `update_xaxes(range=[lower, upper], dtick=dtick)`. */
  datatype XAxis = XAxis(lower: int, upper: int, dtick: int)

  /** The numbers the figure is drawn from. */
  datatype Figure = Figure(lines: map<string, DivisionLines>, xaxis: XAxis)

  /**
   * The sort key `teams[x]['pts']` (line 56). Every name a division lists is
   * in `teams` (Records.Consistent); the 0 is never read for such a name.
   */
  function PointsKey(teams: map<string, TeamStats>): string -> int {
    n => if n in teams then teams[n].pts else 0
  }

  /** The sort key `teams[x]['pp']` (line 122). */
  function PossiblePointsKey(teams: map<string, TeamStats>): string -> int {
    n => if n in teams then teams[n].pp else 0
  }

  /**
   * Lines 56 and 121-123 for one division: the names sorted ascending by
   * points (a stable rearrangement), the points line at the 4th-largest
   * points and the possible-points line at the 4th-largest possible points;
   * `IndexError` when the division lists fewer than four names.
   */
  function DivisionCutoffs(dteams: seq<string>, teams: map<string, TeamStats>): (r: Result<DivisionLines>)
    ensures r.Ok? <==> |dteams| >= 4
    ensures r.Err? ==> r.error == IndexError
    ensures r.Ok? ==>
      && multiset(r.value.sortedTeams) == multiset(dteams)
      && SortedBy(r.value.sortedTeams, PointsKey(teams))
      && IsFourthLargest(dteams, PointsKey(teams), r.value.pointsLine)
      && IsFourthLargest(dteams, PossiblePointsKey(teams), r.value.possiblePointsLine)
  {
    var sortedTeams := SortBy(dteams, PointsKey(teams));
    match FourthFromTop(dteams, PointsKey(teams))
    case Err(e) => Err(e)
    case Ok(pointsLine) =>
      Ok(DivisionLines(sortedTeams, pointsLine, FourthFromTop(dteams, PossiblePointsKey(teams)).value))
  }

  /** Teams with equal points keep their feed order in the bars (Python's sort is stable). */
  lemma {:induction false} SortedTeamsKeepFeedOrder(dteams: seq<string>, teams: map<string, TeamStats>, pts: int)
    requires DivisionCutoffs(dteams, teams).Ok?
    ensures var sortedTeams := DivisionCutoffs(dteams, teams).value.sortedTeams;
      WithKey(sortedTeams, PointsKey(teams), pts) == WithKey(dteams, PointsKey(teams), pts)
  {
    SortByIsStable(dteams, PointsKey(teams), pts);
  }

  /**
   * The possible-points line is never left of the points line when every
   * team of the division is within the season length, since then each
   * team's possible points are at least its points.
   */
  lemma {:induction false} PossibleLineNotBelowPointsLine(dteams: seq<string>, teams: map<string, TeamStats>)
    requires forall n :: n in dteams ==> n in teams && WellFormed(teams[n]) && teams[n].gp <= GamesPerSeason
    ensures DivisionCutoffs(dteams, teams).Ok? ==>
      DivisionCutoffs(dteams, teams).value.pointsLine <= DivisionCutoffs(dteams, teams).value.possiblePointsLine
  {
    FourthFromTopMonotone(dteams, PointsKey(teams), PossiblePointsKey(teams));
  }

  /** The loop over all divisions (lines 55-124): `IndexError` if any division is too small. */
  function CutoffLines(t: Tables): (r: Result<map<string, DivisionLines>>)
    ensures r.Ok? <==> forall d :: d in t.divisions ==> |t.divisions[d]| >= 4
    ensures r.Err? ==> r.error == IndexError
    ensures r.Ok? ==> r.value.Keys == t.divisions.Keys
    ensures r.Ok? ==> forall d :: d in r.value ==> DivisionCutoffs(t.divisions[d], t.teams) == Ok(r.value[d])
  {
    if exists d :: d in t.divisions && |t.divisions[d]| < 4 then Err(IndexError)
    else Ok(map d | d in t.divisions :: DivisionCutoffs(t.divisions[d], t.teams).value)
  }

  /**
   * The state of the axis scan after visiting `names`: `minPts` is the least
   * points value seen, capped at 9999, and `maxPts` the greatest possible
   * points seen, floored at 0.
   */
  ghost predicate ScanBounds(teams: map<string, TeamStats>, names: set<string>, minPts: int, maxPts: int)
    requires names <= teams.Keys
  {
    && minPts <= MinPtsStart
    && (forall n :: n in names ==> minPts <= teams[n].pts)
    && (minPts == MinPtsStart || exists n :: n in names && teams[n].pts == minPts)
    && maxPts >= MaxPtsStart
    && (forall n :: n in names ==> teams[n].pp <= maxPts)
    && (maxPts == MaxPtsStart || exists n :: n in names && teams[n].pp == maxPts)
  }

  /**
   * The loop of lines 126-134 over `teams.items()`; the visiting order is
   * left open (the result does not depend on it).
   */
  method ScanAxis(teams: map<string, TeamStats>) returns (minPts: int, maxPts: int)
    ensures ScanBounds(teams, teams.Keys, minPts, maxPts)
    ensures (exists n :: n in teams && teams[n].pts < MinPtsStart) ==> exists n :: n in teams && teams[n].pts == minPts
  {
    minPts, maxPts := MinPtsStart, MaxPtsStart;
    var rest := teams.Keys;
    while rest != {}
      invariant rest <= teams.Keys
      invariant ScanBounds(teams, teams.Keys - rest, minPts, maxPts)
      decreases rest
    {
      var tn :| tn in rest;
      var t := teams[tn];
      var pts := t.pts;
      if pts < minPts {
        minPts := pts;
      }
      var pp := t.pp;
      if pp > maxPts {
        maxPts := pp;
      }
      rest := rest - {tn};
    }
  }

  /** The scan's bounds are determined by the teams alone. */
  lemma {:induction false} ScanBoundsAreUnique(teams: map<string, TeamStats>, min1: int, max1: int, min2: int, max2: int)
    requires ScanBounds(teams, teams.Keys, min1, max1) && ScanBounds(teams, teams.Keys, min2, max2)
    ensures min1 == min2 && max1 == max2
  {
  }

  /**
   * `do_update` without its I/O and drawing: derive the tables, draw each
   * division's lines, scan for the axis range `[minPts - 1, maxPts + 1]`
   * with tick 2. The first exception raised ends it.
   */
  method DoUpdate(data: seq<DivisionRecord>) returns (r: Result<Figure>)
    ensures var p := Build(NoTables, Entries(data));
      && (p.failure.Some? ==> r == Err(p.failure.value))
      && (p.failure == None ==> (r.Ok? <==> CutoffLines(p.tables).Ok?))
      && (r.Err? && p.failure == None ==> r.error == IndexError)
    ensures r.Ok? ==>
      var t := Build(NoTables, Entries(data)).tables;
      && CutoffLines(t) == Ok(r.value.lines)
      && r.value.xaxis.dtick == TickSpacing
      && ScanBounds(t.teams, t.teams.Keys, r.value.xaxis.lower + 1, r.value.xaxis.upper - 1)
  {
    var divisions, teams, failure := DeriveRecords(data);
    if failure.Some? {
      return Err(failure.value);
    }
    var lines := CutoffLines(Tables(divisions, teams));
    if lines.Err? {
      return Err(lines.error);
    }
    var minPts, maxPts := ScanAxis(teams);
    r := Ok(Figure(lines.value, XAxis(minPts - 1, maxPts + 1, TickSpacing)));
  }

  /** Over consistent tables within the season length, every division's lines are ordered. */
  lemma {:induction false} LinesOrdered(t: Tables)
    requires Consistent(t) && WithinSeason(t.teams)
    ensures CutoffLines(t).Ok? ==>
      forall d :: d in CutoffLines(t).value ==>
        CutoffLines(t).value[d].pointsLine <= CutoffLines(t).value[d].possiblePointsLine
  {
    var lines := CutoffLines(t);
    if lines.Ok? {
      forall d | d in lines.value
        ensures lines.value[d].pointsLine <= lines.value[d].possiblePointsLine
      {
        assert DivisionCutoffs(t.divisions[d], t.teams) == Ok(lines.value[d]);
        PossibleLineNotBelowPointsLine(t.divisions[d], t.teams);
      }
    }
  }

  /**
   * In every figure drawn from a feed whose records are all within the
   * season length, each division's possible-points line is at or right of
   * its points line.
   */
  lemma {:induction false} LinesOrderedInFigure(data: seq<DivisionRecord>)
    requires forall i :: 0 <= i < |Entries(data)| ==> Entries(data)[i].team.gamesPlayed <= GamesPerSeason
    ensures var t := Build(NoTables, Entries(data)).tables;
      CutoffLines(t).Ok? ==>
        forall d :: d in CutoffLines(t).value ==>
          CutoffLines(t).value[d].pointsLine <= CutoffLines(t).value[d].possiblePointsLine
  {
    BuildKeepsConsistent(NoTables, Entries(data));
    BuildKeepsGamesInSeason(NoTables, Entries(data));
    LinesOrdered(Build(NoTables, Entries(data)).tables);
  }
}
