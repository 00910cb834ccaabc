/**
 * The team-record derivation at the top of `do_update`: one pass over the
 * feed's division records that fills the division lists and the per-team
 * table (points, games played, points not played, possible points and
 * last-ten points).
 */
module Records {
  import opened Outcomes

  /** Regular-season length the derived numbers are measured against. */
  const GamesPerSeason := 56

  /** One entry of a team's `overallRecords`; `kind` is the feed's `type`. */
  datatype OverallRecord = OverallRecord(kind: string, wins: int, ot: int)

  /** One entry of a division's `teamRecords`. */
  datatype TeamRecord = TeamRecord(name: string, points: int, gamesPlayed: int, overallRecords: seq<OverallRecord>)

  /** One entry of the feed's `records`: a division name and its team records. */
  datatype DivisionRecord = DivisionRecord(name: string, teamRecords: seq<TeamRecord>)

  /** The integer fields of `teams[tn]`; `l10pts` is None while the key is absent. */
  datatype TeamStats = TeamStats(pts: int, gp: int, pnp: int, pp: int, l10pts: Option<int>)

  /** The two dictionaries the pass fills: division name to team names, team name to stats. */
  datatype Tables = Tables(divisions: map<string, seq<string>>, teams: map<string, TeamStats>)

  /** The state of the pass: the tables so far, and the exception that stopped it, if any. */
  datatype Progress = Progress(tables: Tables, failure: Option<Exception>)

  /** A team record together with the division it is listed under. */
  datatype Entry = Entry(division: string, team: TeamRecord)

  const NoTables := Tables(map[], map[])

  /** Points a team can still earn: two for each game left in the season. */
  function PointsNotPlayed(gp: int): (pnp: int)
    ensures pnp % 2 == 0
    ensures pnp >= 0 <==> gp <= GamesPerSeason
    ensures pnp == 0 <==> gp == GamesPerSeason
  {
    2 * (GamesPerSeason - gp)
  }

  /** The derived fields agree with the recorded points and games played. */
  ghost predicate WellFormed(s: TeamStats) {
    s.pnp == PointsNotPlayed(s.gp) && s.pp == s.pts + s.pnp
  }

  /** Every stats entry is well formed and every listed team has one. */
  ghost predicate Consistent(t: Tables) {
    && (forall n :: n in t.teams ==> WellFormed(t.teams[n]))
    && (forall d, n :: d in t.divisions && n in t.divisions[d] ==> n in t.teams)
  }

  /** The list of a division so far (`defaultdict(list)` yields [] for a new one). */
  function Listed(divisions: map<string, seq<string>>, d: string): seq<string> {
    if d in divisions then divisions[d] else []
  }

  /** `l10pts` as left by an earlier record of the same team, if any. */
  function EarlierLastTen(teams: map<string, TeamStats>, name: string): Option<int> {
    if name in teams then teams[name].l10pts else None
  }

  /**
   * `l10pts` after scanning `rs` in order: each record of type "lastTen"
   * overwrites it with 2 * wins + ot; with none, `prior` stays.
   */
  function LastTenPoints(rs: seq<OverallRecord>, prior: Option<int>): Option<int> {
    if rs == [] then prior
    else
      var r := rs[|rs| - 1];
      if r.kind == "lastTen" then Some(2 * r.wins + r.ot)
      else LastTenPoints(rs[..|rs| - 1], prior)
  }

  /** With no "lastTen" record the earlier value survives. */
  lemma {:induction false} LastTenPointsWithoutRecord(rs: seq<OverallRecord>, prior: Option<int>)
    requires forall i :: 0 <= i < |rs| ==> rs[i].kind != "lastTen"
    ensures LastTenPoints(rs, prior) == prior
  {
    if rs != [] {
      LastTenPointsWithoutRecord(rs[..|rs| - 1], prior);
    }
  }

  /** Otherwise the value comes from the last "lastTen" record. */
  lemma {:induction false} LastTenPointsFromLastRecord(rs: seq<OverallRecord>, prior: Option<int>, i: nat)
    requires i < |rs| && rs[i].kind == "lastTen"
    requires forall j :: i < j < |rs| ==> rs[j].kind != "lastTen"
    ensures LastTenPoints(rs, prior) == Some(2 * rs[i].wins + rs[i].ot)
  {
    if i < |rs| - 1 {
      LastTenPointsFromLastRecord(rs[..|rs| - 1], prior, i);
    }
  }

  /** The scan of `overallRecords` for the "lastTen" record (main.py lines 36-38). */
  method ScanLastTen(rs: seq<OverallRecord>, prior: Option<int>) returns (l10: Option<int>)
    ensures l10 == LastTenPoints(rs, prior)
  {
    l10 := prior;
    for i := 0 to |rs|
      invariant l10 == LastTenPoints(rs[..i], prior)
    {
      assert rs[..i + 1][..i] == rs[..i];
      if rs[i].kind == "lastTen" {
        l10 := Some(2 * rs[i].wins + rs[i].ot);
      }
    }
    assert rs[..|rs|] == rs;
  }

  /** `teams[tn]` after lines 31-34: the four integer fields replaced, `l10pts` kept. */
  function Refreshed(t: TeamRecord, prior: Option<int>): (s: TeamStats)
    ensures WellFormed(s)
    ensures s.pts == t.points && s.gp == t.gamesPlayed && s.l10pts == prior
    ensures s.pp >= s.pts <==> t.gamesPlayed <= GamesPerSeason
  {
    var pnp := PointsNotPlayed(t.gamesPlayed);
    TeamStats(t.points, t.gamesPlayed, pnp, t.points + pnp, prior)
  }

  /**
   * One iteration of the inner loop (lines 29-40): append the name to its
   * division, refresh the team's fields, fail on zero games played (season
   * pace), rescan `l10pts`, and fail if it is still unset (last-ten pace).
   */
  function Step(t: Tables, e: Entry): Progress {
    var name := e.team.name;
    var divisions := t.divisions[e.division := Listed(t.divisions, e.division) + [name]];
    var staged := Refreshed(e.team, EarlierLastTen(t.teams, name));
    if e.team.gamesPlayed == 0 then
      Progress(Tables(divisions, t.teams[name := staged]), Some(ZeroDivisionError))
    else
      var l10 := LastTenPoints(e.team.overallRecords, staged.l10pts);
      Progress(Tables(divisions, t.teams[name := staged.(l10pts := l10)]),
               if l10.None? then Some(KeyError) else None)
  }

  /** The pass over `es` in order, stopping at the first exception. */
  function Build(init: Tables, es: seq<Entry>): Progress {
    if es == [] then Progress(init, None)
    else
      var before := Build(init, es[..|es| - 1]);
      if before.failure.Some? then before else Step(before.tables, es[|es| - 1])
  }

  /** The team records of one division, tagged with its name, in feed order. */
  function DivisionEntries(d: DivisionRecord): (es: seq<Entry>)
    ensures |es| == |d.teamRecords|
    ensures forall i :: 0 <= i < |es| ==> es[i] == Entry(d.name, d.teamRecords[i])
  {
    seq(|d.teamRecords|, i requires 0 <= i < |d.teamRecords| => Entry(d.name, d.teamRecords[i]))
  }

  /** All team records of the feed in the order the nested loop visits them. */
  function Entries(data: seq<DivisionRecord>): seq<Entry> {
    if data == [] then [] else Entries(data[..|data| - 1]) + DivisionEntries(data[|data| - 1])
  }

  lemma {:induction false} EntriesAppend(a: seq<DivisionRecord>, b: seq<DivisionRecord>)
    ensures Entries(a + b) == Entries(a) + Entries(b)
  {
    if b == [] {
      assert a + b == a;
    } else {
      var front, last := b[..|b| - 1], b[|b| - 1];
      EntriesAppend(a, front);
      assert (a + b)[..|a + b| - 1] == a + front;
      assert (a + b)[|a + b| - 1] == last;
      calc {
        Entries(a + b);
        Entries(a + front) + DivisionEntries(last);
        (Entries(a) + Entries(front)) + DivisionEntries(last);
        Entries(a) + (Entries(front) + DivisionEntries(last));
      }
    }
  }

  /** Once the pass has failed, later entries change nothing. */
  lemma {:induction false} BuildStaysFailed(init: Tables, es: seq<Entry>, more: seq<Entry>)
    requires Build(init, es).failure.Some?
    ensures Build(init, es + more) == Build(init, es)
  {
    if more == [] {
      assert es + more == es;
    } else {
      BuildStaysFailed(init, es, more[..|more| - 1]);
      assert (es + more)[..|es + more| - 1] == es + more[..|more| - 1];
    }
  }

  lemma {:induction false} BuildExtend(init: Tables, es: seq<Entry>, e: Entry)
    ensures Build(init, es + [e]) ==
      (var before := Build(init, es); if before.failure.Some? then before else Step(before.tables, e))
  {
    assert (es + [e])[..|es|] == es;
  }

  /**
   * The body of the inner loop (lines 29-40) for team record `t` of
   * division `division`: the same dictionaries and exception as Step.
   */
  method AddTeamRecord(divisions: map<string, seq<string>>, teams: map<string, TeamStats>, division: string, t: TeamRecord)
    returns (divisions': map<string, seq<string>>, teams': map<string, TeamStats>, failure: Option<Exception>)
    ensures Progress(Tables(divisions', teams'), failure) == Step(Tables(divisions, teams), Entry(division, t))
  {
    var tn := t.name;
    divisions' := divisions[division := (if division in divisions then divisions[division] else []) + [tn]];
    var prior := if tn in teams then teams[tn].l10pts else None;
    var pnp := 2 * (GamesPerSeason - t.gamesPlayed);
    var stats := TeamStats(t.points, t.gamesPlayed, pnp, t.points + pnp, prior);
    teams' := teams[tn := stats];
    if t.gamesPlayed == 0 {
      failure := Some(ZeroDivisionError);
      return;
    }
    var l10 := ScanLastTen(t.overallRecords, prior);
    teams' := teams'[tn := teams'[tn].(l10pts := l10)];
    assert teams' == teams[tn := stats.(l10pts := l10)];
    failure := if l10.None? then Some(KeyError) else None;
  }

  /**
   * The nested loop of lines 25-40 over the feed's division records. The
   * two dictionaries and the exception, if any, are those of Build.
   */
  method DeriveRecords(data: seq<DivisionRecord>)
    returns (divisions: map<string, seq<string>>, teams: map<string, TeamStats>, failure: Option<Exception>)
    ensures Progress(Tables(divisions, teams), failure) == Build(NoTables, Entries(data))
  {
    divisions, teams, failure := map[], map[], None;
    for i := 0 to |data|
      invariant failure == None
      invariant Progress(Tables(divisions, teams), None) == Build(NoTables, Entries(data[..i]))
    {
      var d := data[i];
      ghost var done := Entries(data[..i]);
      ghost var own := DivisionEntries(d);
      assert done + own[..0] == done;
      for j := 0 to |d.teamRecords|
        invariant failure == None
        invariant Progress(Tables(divisions, teams), None) == Build(NoTables, done + own[..j])
      {
        BuildNext(done, own, j, Tables(divisions, teams));
        divisions, teams, failure := AddTeamRecord(divisions, teams, d.name, d.teamRecords[j]);
        if failure.Some? {
          FailureIsFinal(data, i, j);
          return;
        }
      }
      NextDivision(data, i);
    }
    assert data[..|data|] == data;
  }

  /** One more team record of the current division is one more Step. */
  lemma {:induction false} BuildNext(done: seq<Entry>, own: seq<Entry>, j: nat, t: Tables)
    requires j < |own|
    requires Progress(t, None) == Build(NoTables, done + own[..j])
    ensures Build(NoTables, done + own[..j + 1]) == Step(t, own[j])
  {
    assert done + own[..j + 1] == (done + own[..j]) + [own[j]];
    BuildExtend(NoTables, done + own[..j], own[j]);
  }

  /** Finishing the `i`-th division finishes the prefix `data[..i + 1]`. */
  lemma {:induction false} NextDivision(data: seq<DivisionRecord>, i: nat)
    requires i < |data|
    ensures Entries(data[..i + 1]) == Entries(data[..i]) + DivisionEntries(data[i])[..|data[i].teamRecords|]
  {
    assert DivisionEntries(data[i])[..|data[i].teamRecords|] == DivisionEntries(data[i]);
    assert data[..i + 1][..i] == data[..i];
  }

  /** The feed's entries around the `i`-th division. */
  lemma {:induction false} EntriesAround(data: seq<DivisionRecord>, i: nat)
    requires i < |data|
    ensures Entries(data) == Entries(data[..i]) + DivisionEntries(data[i]) + Entries(data[i + 1..])
  {
    assert data == data[..i + 1] + data[i + 1..];
    EntriesAppend(data[..i + 1], data[i + 1..]);
    NextDivision(data, i);
    assert DivisionEntries(data[i])[..|data[i].teamRecords|] == DivisionEntries(data[i]);
  }

  /** The feed's entries split just after the `j`-th team record of the `i`-th division. */
  lemma {:induction false} EntriesSplit(data: seq<DivisionRecord>, i: nat, j: nat)
    requires i < |data| && j < |data[i].teamRecords|
    ensures Entries(data) ==
      (Entries(data[..i]) + DivisionEntries(data[i])[..j + 1]) + (DivisionEntries(data[i])[j + 1..] + Entries(data[i + 1..]))
  {
    var own := DivisionEntries(data[i]);
    EntriesAround(data, i);
    assert own == own[..j + 1] + own[j + 1..];
  }

  /** A failure at the `j`-th team record of the `i`-th division ends the pass. */
  lemma {:induction false} FailureIsFinal(data: seq<DivisionRecord>, i: nat, j: nat)
    requires i < |data| && j < |data[i].teamRecords|
    requires Build(NoTables, Entries(data[..i]) + DivisionEntries(data[i])[..j + 1]).failure.Some?
    ensures Build(NoTables, Entries(data)) == Build(NoTables, Entries(data[..i]) + DivisionEntries(data[i])[..j + 1])
  {
    EntriesSplit(data, i, j);
    BuildStaysFailed(NoTables, Entries(data[..i]) + DivisionEntries(data[i])[..j + 1],
                     DivisionEntries(data[i])[j + 1..] + Entries(data[i + 1..]));
  }

  // ---------------------------------------------------------------------
  // What the pass promises

  /** Some record in `rs` has type "lastTen". */
  ghost predicate HasLastTen(rs: seq<OverallRecord>) {
    exists i :: 0 <= i < |rs| && rs[i].kind == "lastTen"
  }

  /** `l10pts` is set after the scan exactly when a "lastTen" record was seen or it was set before. */
  lemma {:induction false} LastTenPointsDefined(rs: seq<OverallRecord>, prior: Option<int>)
    ensures LastTenPoints(rs, prior).Some? <==> HasLastTen(rs) || prior.Some?
  {
    if rs != [] {
      var front := rs[..|rs| - 1];
      LastTenPointsDefined(front, prior);
      if HasLastTen(front) {
        var i :| 0 <= i < |front| && front[i].kind == "lastTen";
        assert rs[i] == front[i];
      }
      if HasLastTen(rs) && rs[|rs| - 1].kind != "lastTen" {
        var i :| 0 <= i < |rs| && rs[i].kind == "lastTen";
        assert front[i] == rs[i];
      }
    }
  }

  /** A "lastTen" record decides `l10pts` whatever it was before. */
  lemma {:induction false} LastTenPointsOverridesPrior(rs: seq<OverallRecord>, prior: Option<int>)
    requires HasLastTen(rs)
    ensures LastTenPoints(rs, prior) == LastTenPoints(rs, None)
  {
    var front := rs[..|rs| - 1];
    if rs[|rs| - 1].kind != "lastTen" {
      var i :| 0 <= i < |rs| && rs[i].kind == "lastTen";
      assert front[i] == rs[i];
      LastTenPointsOverridesPrior(front, prior);
    }
  }

  /** One step keeps the tables consistent, even when it raises. */
  lemma StepKeepsConsistent(t: Tables, e: Entry)
    requires Consistent(t)
    ensures Consistent(Step(t, e).tables)
  {
    var name := e.team.name;
    var after := Step(t, e).tables;
    forall d, n | d in after.divisions && n in after.divisions[d] ensures n in after.teams {
      if d == e.division && n !in Listed(t.divisions, e.division) {
        assert n == name;
      }
    }
  }

  /** Every team the pass lists under a division has well-formed stats. */
  lemma {:induction false} BuildKeepsConsistent(init: Tables, es: seq<Entry>)
    requires Consistent(init)
    ensures Consistent(Build(init, es).tables)
  {
    if es != [] {
      BuildKeepsConsistent(init, es[..|es| - 1]);
      var before := Build(init, es[..|es| - 1]);
      if before.failure.None? {
        StepKeepsConsistent(before.tables, es[|es| - 1]);
      }
    }
  }

  /** The names of the team records in `es`. */
  function TeamNames(es: seq<Entry>): set<string> {
    set i | 0 <= i < |es| :: es[i].team.name
  }

  /** The names recorded under division `d` in `es`, in order. */
  function NamesUnder(es: seq<Entry>, d: string): seq<string> {
    if es == [] then []
    else
      var e := es[|es| - 1];
      NamesUnder(es[..|es| - 1], d) + (if e.division == d then [e.team.name] else [])
  }

  /**
   * After a pass that raised nothing, each division's list is its earlier
   * list followed by the names recorded under it, in feed order (repeats kept).
   */
  lemma {:induction false} BuildListsNamesInFeedOrder(init: Tables, es: seq<Entry>, d: string)
    requires Build(init, es).failure == None
    ensures Listed(Build(init, es).tables.divisions, d) == Listed(init.divisions, d) + NamesUnder(es, d)
  {
    if es != [] {
      BuildListsNamesInFeedOrder(init, es[..|es| - 1], d);
    }
  }

  /** After a pass that raised nothing, the teams are the earlier ones and every name recorded. */
  lemma {:induction false} BuildTeamKeys(init: Tables, es: seq<Entry>)
    requires Build(init, es).failure == None
    ensures Build(init, es).tables.teams.Keys == init.teams.Keys + TeamNames(es)
  {
    if es != [] {
      var front := es[..|es| - 1];
      BuildTeamKeys(init, front);
      assert TeamNames(es) == TeamNames(front) + {es[|es| - 1].team.name} by {
        forall n | n in TeamNames(es) ensures n in TeamNames(front) + {es[|es| - 1].team.name} {
          var i :| 0 <= i < |es| && es[i].team.name == n;
          if i < |es| - 1 { assert front[i] == es[i]; }
        }
        forall n | n in TeamNames(front) ensures n in TeamNames(es) {
          var i :| 0 <= i < |front| && front[i].team.name == n;
          assert es[i] == front[i];
        }
      }
    }
  }

  /** The division names the records in `es` are listed under. */
  function DivisionNames(es: seq<Entry>): set<string> {
    set i | 0 <= i < |es| :: es[i].division
  }

  /**
   * After a pass that raises nothing, the division table has the earlier
   * divisions and exactly those the team records are listed under: a
   * division record with no team records adds no key.
   */
  lemma {:induction false} BuildDivisionKeys(init: Tables, es: seq<Entry>)
    requires Build(init, es).failure == None
    ensures Build(init, es).tables.divisions.Keys == init.divisions.Keys + DivisionNames(es)
  {
    if es != [] {
      var front := es[..|es| - 1];
      BuildDivisionKeys(init, front);
      assert DivisionNames(es) == DivisionNames(front) + {es[|es| - 1].division} by {
        forall d | d in DivisionNames(es) ensures d in DivisionNames(front) + {es[|es| - 1].division} {
          var i :| 0 <= i < |es| && es[i].division == d;
          if i < |es| - 1 { assert front[i] == es[i]; }
        }
        forall d | d in DivisionNames(front) ensures d in DivisionNames(es) {
          var i :| 0 <= i < |front| && front[i].division == d;
          assert es[i] == front[i];
        }
      }
    }
  }

  /** Every team's `l10pts` is set after a pass that raised nothing. */
  ghost predicate AllLastTenSet(teams: map<string, TeamStats>) {
    forall n :: n in teams ==> teams[n].l10pts.Some?
  }

  lemma {:induction false} BuildSetsLastTen(init: Tables, es: seq<Entry>)
    requires AllLastTenSet(init.teams)
    requires Build(init, es).failure == None
    ensures AllLastTenSet(Build(init, es).tables.teams)
  {
    if es != [] {
      BuildSetsLastTen(init, es[..|es| - 1]);
    }
  }

  /**
   * A recurring name is overwritten: after a pass that raised nothing, a
   * team's points and games played are those of its last record, and its
   * `l10pts` is that record's last-ten points when it has a "lastTen" record.
   */
  lemma {:induction false} BuildLastRecordWins(init: Tables, es: seq<Entry>, i: nat)
    requires Build(init, es).failure == None
    requires i < |es|
    requires forall j :: i < j < |es| ==> es[j].team.name != es[i].team.name
    ensures var teams := Build(init, es).tables.teams;
      && es[i].team.name in teams
      && teams[es[i].team.name].pts == es[i].team.points
      && teams[es[i].team.name].gp == es[i].team.gamesPlayed
      && teams[es[i].team.name].pp == es[i].team.points + PointsNotPlayed(es[i].team.gamesPlayed)
      && teams[es[i].team.name].l10pts.Some?
      && (HasLastTen(es[i].team.overallRecords) ==>
            teams[es[i].team.name].l10pts == LastTenPoints(es[i].team.overallRecords, None))
      && (!HasLastTen(es[i].team.overallRecords) ==>
            teams[es[i].team.name].l10pts == EarlierLastTen(Build(init, es[..i]).tables.teams, es[i].team.name))
  {
    var front := es[..|es| - 1];
    var before := Build(init, front);
    if i == |es| - 1 {
      var rs := es[i].team.overallRecords;
      if HasLastTen(rs) {
        LastTenPointsOverridesPrior(rs, EarlierLastTen(before.tables.teams, es[i].team.name));
      } else {
        LastTenPointsWithoutRecord(rs, EarlierLastTen(before.tables.teams, es[i].team.name));
        assert es[..i] == front;
      }
    } else {
      BuildLastRecordWins(init, front, i);
      assert front[..i] == es[..i];
    }
  }

  /** Record `i` of `es` may leave `l10pts` unset: no "lastTen" record, and no earlier value. */
  ghost predicate LastTenResolves(init: Tables, es: seq<Entry>, i: nat)
    requires i < |es|
  {
    || HasLastTen(es[i].team.overallRecords)
    || es[i].team.name in init.teams
    || es[i].team.name in TeamNames(es[..i])
  }

  /**
   * The pass raises nothing exactly when no record has zero games played
   * and every record either has a "lastTen" record or follows an earlier
   * record of the same team (whose `l10pts` it then keeps).
   */
  lemma {:induction false} BuildSucceedsIff(init: Tables, es: seq<Entry>)
    requires AllLastTenSet(init.teams)
    ensures Build(init, es).failure == None <==>
      forall i :: 0 <= i < |es| ==> es[i].team.gamesPlayed != 0 && LastTenResolves(init, es, i)
  {
    if es != [] {
      var front, e := es[..|es| - 1], es[|es| - 1];
      BuildSucceedsIff(init, front);
      assert forall i :: 0 <= i < |front| ==> es[i] == front[i] && es[..i] == front[..i];
      var before := Build(init, front);
      if before.failure == None {
        BuildTeamKeys(init, front);
        BuildSetsLastTen(init, front);
        var prior := EarlierLastTen(before.tables.teams, e.team.name);
        LastTenPointsDefined(e.team.overallRecords, prior);
        assert es[..|es| - 1] == front;
      }
    }
  }

  /** No team has played more than a season's games. */
  ghost predicate WithinSeason(teams: map<string, TeamStats>) {
    forall n :: n in teams ==> teams[n].gp <= GamesPerSeason
  }

  /** Teams stay within the season length when every record does. */
  lemma {:induction false} BuildKeepsGamesInSeason(init: Tables, es: seq<Entry>)
    requires WithinSeason(init.teams)
    requires forall i :: 0 <= i < |es| ==> es[i].team.gamesPlayed <= GamesPerSeason
    ensures WithinSeason(Build(init, es).tables.teams)
  {
    if es != [] {
      var front := es[..|es| - 1];
      assert forall i :: 0 <= i < |front| ==> front[i] == es[i];
      BuildKeepsGamesInSeason(init, front);
      var before := Build(init, front);
      if before.failure == None {
        var e := es[|es| - 1];
        assert e.team.gamesPlayed <= GamesPerSeason;
        var teams := Step(before.tables, e).tables.teams;
        forall n | n in teams ensures teams[n].gp <= GamesPerSeason {
          if n == e.team.name {
            assert teams[n].gp == e.team.gamesPlayed;
          } else {
            assert teams[n] == before.tables.teams[n];
          }
        }
      }
    }
  }
}
