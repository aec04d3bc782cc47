/** clean_df and the four column builders it calls. The DataFrame is an
    array of rows that each step overwrites in place; every
    df.loc[mask, column] = value of the program is one AssignWhere call. */
module Cleaner {
  import opened Wrappers
  import opened Text
  import opened Clock
  import opened Rows

  /** Why a game's table cannot be cleaned: unique()[0] on an empty
      selection (no row at that location), or a clock pd.to_datetime rejects. */
  datatype CleanError = NoRowsAt(location: string) | BadClock

  /** The rows after applying f to each of them. */
  function MapRows(rows: seq<Row>, f: Row -> Row): seq<Row>
  {
    seq(|rows|, i requires 0 <= i < |rows| => f(rows[i]))
  }

  /** The rows after df.loc[mask, ...] = ...: update on the rows mask selects. */
  function Where(rows: seq<Row>, mask: Row -> bool, update: Row -> Row): seq<Row>
  {
    seq(|rows|, i requires 0 <= i < |rows| => if mask(rows[i]) then update(rows[i]) else rows[i])
  }

  /** The index of the first row at a location holds that location and no earlier row does. */
  predicate FirstAt(rows: seq<Row>, location: string, k: nat)
  {
    k < |rows| && rows[k].location == location && forall j :: 0 <= j < k ==> rows[j].location != location
  }

  /** The index of the first row, in row order, whose location is the given one. */
  function FirstIndex(rows: seq<Row>, location: string): (k: Option<nat>)
    ensures k.None? <==> forall i :: 0 <= i < |rows| ==> rows[i].location != location
    ensures k.Some? ==> FirstAt(rows, location, k.value)
  {
    if rows == [] then None
    else if rows[0].location == location then Some(0)
    else
      match FirstIndex(rows[1..], location)
      case None =>
        assert forall i :: 1 <= i < |rows| ==> rows[i] == rows[1..][i - 1];
        None
      case Some(k) =>
        assert forall j :: 1 <= j < k + 1 ==> rows[j] == rows[1..][j - 1];
        Some(k + 1)
  }

  /** df[df['location'] == location]['teamTricode'].unique()[0]: the team code of the
      first row at the location (itself possibly NaN), None when unique()[0] raises. */
  function FirstTeam(rows: seq<Row>, location: string): (t: Option<Option<string>>)
    ensures t.None? <==> forall i :: 0 <= i < |rows| ==> rows[i].location != location
    ensures t.Some? ==> exists k: nat :: FirstAt(rows, location, k) && t.value == rows[k].teamTricode
  {
    match FirstIndex(rows, location)
    case None => None
    case Some(k) => Some(rows[k].teamTricode)
  }

  /** The shotVal the four masked writes of create_shotval leave; a later write wins,
      so a free throw is 1 whatever isFieldGoal says. */
  function ShotValue(r: Row): Points
  {
    if r.actionType == "Free Throw" then Num(1)
    else if r.isFieldGoal == 1 then (if Contains(r.description, "3PT") then Num(3) else Num(2))
    else if r.isFieldGoal == 0 then Empty
    else r.shotVal
  }

  function WithShot(r: Row): Row
  {
    r.(shotVal := ShotValue(r))
  }

  /** The scoreVal the five masked writes of create_scoreval leave, reading the
      shotVal create_shotval wrote; rows no mask selects keep their old value. */
  function ScoreValue(r: Row): Points
  {
    if r.actionType == "Free Throw" then (if Contains(r.description, "MISS") then Num(0) else Num(1))
    else if r.actionType == "Missed Shot" then Num(0)
    else if r.actionType == "Made Shot" then r.shotVal
    else if r.isFieldGoal == 0 then Empty
    else r.scoreVal
  }

  function WithScore(r: Row): Row
  {
    r.(scoreVal := ScoreValue(r))
  }

  /** The clock text the first three rewrites of convert_clock leave. */
  function NormalizedRow(r: Row): Row
  {
    r.(clock := Normalize(r.clock))
  }

  /** A row whose clock converts, with the converted clock. */
  function ConvertedRow(r: Row): Row
  {
    match Convert(r.clock)
    case None => r
    case Some(c) => r.(clock := c)
  }

  /** A row after create_teams, create_shotval and create_scoreval. */
  function Staged(r: Row, home: Option<string>, away: Option<string>): Row
  {
    WithScore(WithShot(r.(home := home, away := away)))
  }

  /** The team columns and the value columns do not read each other, so
      create_teams could run after the value columns with the same result. */
  lemma TeamsCommute(r: Row, home: Option<string>, away: Option<string>)
    ensures Staged(r, home, away) == WithScore(WithShot(r)).(home := home, away := away)
  {
    var teamed := r.(home := home, away := away);
    assert teamed.shotVal == r.shotVal && teamed.description == r.description;
  }

  /** The whole of clean_df on one row, given the game's home and away codes. */
  function Cleaned(r: Row, home: Option<string>, away: Option<string>): Row
  {
    ConvertedRow(Staged(r, home, away))
  }

  /** What clean_df returns for a game's table: create_teams fails first, on
      'h' before 'v'; then one unparsable clock fails the whole conversion. */
  function CleanSpec(rows: seq<Row>): Result<seq<Record>, CleanError>
  {
    match FirstTeam(rows, "h")
    case None => Err(NoRowsAt("h"))
    case Some(home) =>
      match FirstTeam(rows, "v")
      case None => Err(NoRowsAt("v"))
      case Some(away) =>
        if ClocksParse(rows) then Ok(CleanRows(rows, home, away)) else Err(BadClock)
  }

  /** df[export_columns] on the whole table. */
  function ProjectAll(rows: seq<Row>): seq<Record>
  {
    seq(|rows|, i requires 0 <= i < |rows| => Project(rows[i]))
  }

  /** Every clock of the table converts. */
  predicate ClocksParse(rows: seq<Row>)
  {
    forall i :: 0 <= i < |rows| ==> Convert(rows[i].clock).Some?
  }

  /** The projected records of the cleaned rows. */
  function CleanRows(rows: seq<Row>, home: Option<string>, away: Option<string>): seq<Record>
  {
    seq(|rows|, i requires 0 <= i < |rows| => Project(Cleaned(rows[i], home, away)))
  }

  /** df.loc[mask, column] = value, one row at a time. */
  method AssignWhere(df: array<Row>, mask: Row -> bool, update: Row -> Row)
    modifies df
    ensures forall i :: 0 <= i < df.Length ==> df[i] == if mask(old(df[i])) then update(old(df[i])) else old(df[i])
  {
    for i := 0 to df.Length
      invariant forall k :: 0 <= k < i ==> df[k] == if mask(old(df[k])) then update(old(df[k])) else old(df[k])
      invariant forall k :: i <= k < df.Length ==> df[k] == old(df[k])
    {
      if mask(df[i]) {
        df[i] := update(df[i]);
      }
    }
  }

  /** create_teams: the game's home and away codes on every row, or the
      error of the first location with no row, leaving the table as it was. */
  method CreateTeams(df: array<Row>) returns (err: Option<CleanError>)
    modifies df
    ensures FirstTeam(old(df[..]), "h").None? ==> err == Some(NoRowsAt("h")) && df[..] == old(df[..])
    ensures FirstTeam(old(df[..]), "h").Some? && FirstTeam(old(df[..]), "v").None? ==>
      err == Some(NoRowsAt("v")) && df[..] == old(df[..])
    ensures FirstTeam(old(df[..]), "h").Some? && FirstTeam(old(df[..]), "v").Some? ==>
      err == None && forall i :: 0 <= i < df.Length ==>
        df[i] == old(df[i]).(home := FirstTeam(old(df[..]), "h").value, away := FirstTeam(old(df[..]), "v").value)
  {
    var home := FirstTeam(df[..], "h");
    if home.None? {
      return Some(NoRowsAt("h"));
    }
    var away := FirstTeam(df[..], "v");
    if away.None? {
      return Some(NoRowsAt("v"));
    }
    AssignWhere(df, (r: Row) => true, (r: Row) => r.(home := home.value));
    AssignWhere(df, (r: Row) => true, (r: Row) => r.(away := away.value));
    return None;
  }

  /** create_shotval: every row's shotVal becomes ShotValue of the row. */
  method CreateShotVal(df: array<Row>)
    modifies df
    ensures forall i :: 0 <= i < df.Length ==> df[i] == WithShot(old(df[i]))
  {
    AssignWhere(df, (r: Row) => r.isFieldGoal == 0, (r: Row) => r.(shotVal := Empty));
    AssignWhere(df, (r: Row) => r.isFieldGoal == 1 && Contains(r.description, "3PT"), (r: Row) => r.(shotVal := Num(3)));
    AssignWhere(df, (r: Row) => r.isFieldGoal == 1 && !Contains(r.description, "3PT"), (r: Row) => r.(shotVal := Num(2)));
    AssignWhere(df, (r: Row) => r.actionType == "Free Throw", (r: Row) => r.(shotVal := Num(1)));
  }

  /** create_scoreval: every row's scoreVal becomes ScoreValue of the row. */
  method CreateScoreVal(df: array<Row>)
    modifies df
    ensures forall i :: 0 <= i < df.Length ==> df[i] == WithScore(old(df[i]))
  {
    ghost var s0 := df[..];
    AssignWhere(df, (r: Row) => r.isFieldGoal == 0, (r: Row) => r.(scoreVal := Empty));
    ghost var s1 := df[..];
    AssignWhere(df, (r: Row) => r.actionType == "Made Shot", (r: Row) => r.(scoreVal := r.shotVal));
    ghost var s2 := df[..];
    AssignWhere(df, (r: Row) => r.actionType == "Missed Shot", (r: Row) => r.(scoreVal := Num(0)));
    ghost var s3 := df[..];
    AssignWhere(df, (r: Row) => r.actionType == "Free Throw" && Contains(r.description, "MISS"), (r: Row) => r.(scoreVal := Num(0)));
    ghost var s4 := df[..];
    AssignWhere(df, (r: Row) => r.actionType == "Free Throw" && !Contains(r.description, "MISS"), (r: Row) => r.(scoreVal := Num(1)));
    forall i | 0 <= i < df.Length
      ensures df[i] == WithScore(s0[i])
    {
      ScoreSteps(s0[i], s1[i], s2[i], s3[i], s4[i], df[i]);
    }
  }

  /** The five masked writes of create_scoreval, one after another on one row. */
  lemma ScoreSteps(r0: Row, r1: Row, r2: Row, r3: Row, r4: Row, r5: Row)
    requires r1 == if r0.isFieldGoal == 0 then r0.(scoreVal := Empty) else r0
    requires r2 == if r1.actionType == "Made Shot" then r1.(scoreVal := r1.shotVal) else r1
    requires r3 == if r2.actionType == "Missed Shot" then r2.(scoreVal := Num(0)) else r2
    requires r4 == if r3.actionType == "Free Throw" && Contains(r3.description, "MISS") then r3.(scoreVal := Num(0)) else r3
    requires r5 == if r4.actionType == "Free Throw" && !Contains(r4.description, "MISS") then r4.(scoreVal := Num(1)) else r4
    ensures r5 == WithScore(r0)
  {
  }

  /** The text str(time)[3:] gives for a parsed clock; text that does not
      parse is left alone (convert_clock never reaches this for it). */
  function FormatClock(t: string): string
  {
    match Parse(t)
    case None => t
    case Some(time) => TimeText(time)[3..]
  }

  /** df['clock'] = f(df['clock']): the same rewrite on every row's clock. */
  method SetClock(df: array<Row>, f: string -> string)
    modifies df
    ensures forall i :: 0 <= i < df.Length ==> df[i] == old(df[i]).(clock := f(old(df[i]).clock))
  {
    AssignWhere(df, (r: Row) => true, (r: Row) => r.(clock := f(r.clock)));
  }

  /** convert_clock: when every clock parses, each becomes its Convert text;
      otherwise pd.to_datetime raises with the three string rewrites already
      written back into the table. */
  method ConvertClock(df: array<Row>) returns (err: Option<CleanError>)
    modifies df
    ensures err.None? <==> ClocksParse(old(df[..]))
    ensures err.None? ==> forall i :: 0 <= i < df.Length ==> df[i] == ConvertedRow(old(df[i]))
    ensures err.Some? ==> err == Some(BadClock) && forall i :: 0 <= i < df.Length ==> df[i] == NormalizedRow(old(df[i]))
  {
    ghost var before := df[..];
    SetClock(df, (c: string) => Strip(c, STRIPPED));
    SetClock(df, (c: string) => Replace(c, 'M', ":"));
    SetClock(df, (c: string) => Replace(c, 'S', ""));
    ghost var normalized := df[..];
    assert forall i :: 0 <= i < |before| ==> normalized[i] == NormalizedRow(before[i]);
    if !forall i :: 0 <= i < df.Length ==> Parse(df[i].clock).Some? {
      ghost var k :| 0 <= k < df.Length && Parse(df[k].clock).None?;
      assert Parse(normalized[k].clock).None?;
      assert Convert(before[k].clock).None?;
      return Some(BadClock);
    }
    assert ClocksParse(before) by {
      forall i | 0 <= i < |before|
        ensures Convert(before[i].clock).Some?
      {
        assert Parse(normalized[i].clock).Some?;
      }
    }
    SetClock(df, FormatClock);
    return None;
  }

  /** The first three stages of clean_df keep every clock, and the clock
      conversion then completes Cleaned, row by row. */
  lemma StagesCompose(rows: seq<Row>, scored: seq<Row>, home: Option<string>, away: Option<string>)
    requires |scored| == |rows|
    requires forall i :: 0 <= i < |rows| ==> scored[i] == Staged(rows[i], home, away)
    ensures ClocksParse(scored) == ClocksParse(rows)
    ensures forall i :: 0 <= i < |rows| ==> ConvertedRow(scored[i]) == Cleaned(rows[i], home, away)
  {
    assert forall i :: 0 <= i < |rows| ==> scored[i].clock == rows[i].clock;
  }

  /** The projected, converted rows of the staged table are CleanRows. */
  lemma ConvertedRecords(rows: seq<Row>, scored: seq<Row>, records: seq<Record>, home: Option<string>, away: Option<string>)
    requires |scored| == |rows| && |records| == |rows|
    requires forall i :: 0 <= i < |rows| ==> scored[i] == Staged(rows[i], home, away)
    requires forall i :: 0 <= i < |rows| ==> records[i] == Project(ConvertedRow(scored[i]))
    ensures records == CleanRows(rows, home, away)
  {
    var cleaned := CleanRows(rows, home, away);
    forall i | 0 <= i < |rows|
      ensures records[i] == cleaned[i]
    {
      assert scored[i].clock == rows[i].clock;
    }
  }

  /** The table the first three stages of clean_df leave: the game's teams
      exist, and every row is staged with them. */
  predicate StagedTable(rows: seq<Row>, staged: seq<Row>)
  {
    FirstTeam(rows, "h").Some? && FirstTeam(rows, "v").Some? && |staged| == |rows| &&
    forall i :: 0 <= i < |rows| ==> staged[i] == Staged(rows[i], FirstTeam(rows, "h").value, FirstTeam(rows, "v").value)
  }

  /** What convert_clock and the projection make of a table: the records of
      the converted rows, or BadClock when one clock does not parse. */
  function ConvertOutcome(rows: seq<Row>): Result<seq<Record>, CleanError>
  {
    if ClocksParse(rows) then Ok(seq(|rows|, i requires 0 <= i < |rows| => Project(ConvertedRow(rows[i]))))
    else Err(BadClock)
  }

  /** Converting and projecting the staged table gives CleanSpec's outcome. */
  lemma FinalStage(rows: seq<Row>, staged: seq<Row>)
    requires StagedTable(rows, staged)
    ensures CleanSpec(rows) == ConvertOutcome(staged)
  {
    var home, away := FirstTeam(rows, "h").value, FirstTeam(rows, "v").value;
    assert CleanSpec(rows) == if ClocksParse(rows) then Ok(CleanRows(rows, home, away)) else Err(BadClock);
    StagedOutcome(rows, staged, home, away);
  }

  /** The staged table's outcome, in terms of the original rows. */
  lemma StagedOutcome(rows: seq<Row>, staged: seq<Row>, home: Option<string>, away: Option<string>)
    requires |staged| == |rows|
    requires forall i :: 0 <= i < |rows| ==> staged[i] == Staged(rows[i], home, away)
    ensures ConvertOutcome(staged) == if ClocksParse(rows) then Ok(CleanRows(rows, home, away)) else Err(BadClock)
  {
    StagesCompose(rows, staged, home, away);
    if ClocksParse(rows) {
      ConvertedRecords(rows, staged, ConvertOutcome(staged).value, home, away);
    }
  }

  /** The first three calls of clean_df: create_teams, then the two value columns. */
  method BuildColumns(df: array<Row>) returns (err: Option<CleanError>)
    modifies df
    ensures FirstTeam(old(df[..]), "h").None? ==> err == Some(NoRowsAt("h"))
    ensures FirstTeam(old(df[..]), "h").Some? && FirstTeam(old(df[..]), "v").None? ==> err == Some(NoRowsAt("v"))
    ensures FirstTeam(old(df[..]), "h").Some? && FirstTeam(old(df[..]), "v").Some? ==>
      err == None && StagedTable(old(df[..]), df[..])
    ensures err.Some? ==> df[..] == old(df[..])
  {
    err := CreateTeams(df);
    if err.Some? {
      return;
    }
    CreateShotVal(df);
    CreateScoreVal(df);
  }

  /** The table convert_clock leaves: every clock converted, or, when one
      does not parse, every clock with only its string rewrites done. */
  function AfterConvert(rows: seq<Row>): seq<Row>
  {
    seq(|rows|, i requires 0 <= i < |rows| => if ClocksParse(rows) then ConvertedRow(rows[i]) else NormalizedRow(rows[i]))
  }

  /** The last two steps of clean_df: convert_clock, then df[export_columns]. */
  method ConvertAndProject(df: array<Row>) returns (r: Result<seq<Record>, CleanError>)
    modifies df
    ensures r == ConvertOutcome(old(df[..]))
    ensures df[..] == AfterConvert(old(df[..]))
  {
    ghost var before := df[..];
    var err := ConvertClock(df);
    if err.Some? {
      assert df[..] == AfterConvert(before);
      return Err(err.value);
    }
    assert df[..] == AfterConvert(before);
    r := Ok(ProjectAll(df[..]));
    assert r.value == ConvertOutcome(before).value by {
      forall i | 0 <= i < df.Length
        ensures r.value[i] == ConvertOutcome(before).value[i]
      {
      }
    }
  }

  /** The table create_teams, create_shotval and create_scoreval leave. */
  function StagedRows(rows: seq<Row>, home: Option<string>, away: Option<string>): seq<Row>
  {
    seq(|rows|, i requires 0 <= i < |rows| => Staged(rows[i], home, away))
  }

  /** The table clean_df leaves behind in its argument: untouched when
      create_teams raises, otherwise the staged table after convert_clock. */
  function InPlace(rows: seq<Row>): seq<Row>
  {
    match FirstTeam(rows, "h")
    case None => rows
    case Some(home) =>
      match FirstTeam(rows, "v")
      case None => rows
      case Some(away) => AfterConvert(StagedRows(rows, home, away))
  }

  /** clean_df: the cleaned records of the table, or the error that stops it,
      with the argument changed in place as the four steps change it. */
  method CleanDf(df: array<Row>) returns (r: Result<seq<Record>, CleanError>)
    modifies df
    ensures r == CleanSpec(old(df[..]))
    ensures df[..] == InPlace(old(df[..]))
  {
    ghost var before := df[..];
    var err := BuildColumns(df);
    if err.Some? {
      return Err(err.value);
    }
    ghost var staged := df[..];
    FinalStage(before, staged);
    InPlaceStaged(before, staged);
    r := ConvertAndProject(df);
  }

  /** convert_clock on the staged table leaves InPlace of the original. */
  lemma InPlaceStaged(rows: seq<Row>, staged: seq<Row>)
    requires StagedTable(rows, staged)
    ensures AfterConvert(staged) == InPlace(rows)
  {
    assert staged == StagedRows(rows, FirstTeam(rows, "h").value, FirstTeam(rows, "v").value);
  }

  /** The records clean_df returns are the export columns of the table it
      leaves in place, which keeps the argument's length. */
  lemma InPlaceProjects(rows: seq<Row>)
    ensures |InPlace(rows)| == |rows|
    ensures CleanSpec(rows).Ok? ==> CleanSpec(rows).value == ProjectAll(InPlace(rows))
  {
    match FirstTeam(rows, "h")
    case None =>
    case Some(home) =>
      match FirstTeam(rows, "v")
      case None =>
      case Some(away) =>
        if ClocksParse(rows) {
          ParsedProjects(rows, home, away);
        }
  }

  /** With both teams present and every clock converting, the records are the
      projected table left in place. */
  lemma ParsedProjects(rows: seq<Row>, home: Option<string>, away: Option<string>)
    requires ClocksParse(rows)
    ensures CleanRows(rows, home, away) == ProjectAll(AfterConvert(StagedRows(rows, home, away)))
  {
    var staged := StagedRows(rows, home, away);
    StagedOutcome(rows, staged, home, away);
    StagesCompose(rows, staged, home, away);
    ConvertProjects(staged);
  }

  /** When clean_df fails on a clock, the table it leaves holds every clock
      rewritten to the text pd.to_datetime rejected. */
  lemma InPlaceRejected(rows: seq<Row>)
    requires CleanSpec(rows) == Err(BadClock)
    ensures |InPlace(rows)| == |rows|
    ensures forall i :: 0 <= i < |rows| ==> InPlace(rows)[i].clock == Normalize(rows[i].clock)
  {
    RejectedClocks(rows, FirstTeam(rows, "h").value, FirstTeam(rows, "v").value);
  }

  /** When every clock converts, the records are the projected converted table. */
  lemma ConvertProjects(staged: seq<Row>)
    requires ClocksParse(staged)
    ensures ConvertOutcome(staged) == Ok(ProjectAll(AfterConvert(staged)))
  {
    var after, records := AfterConvert(staged), ConvertOutcome(staged).value;
    var projected := ProjectAll(after);
    forall i | 0 <= i < |staged|
      ensures records[i] == projected[i]
    {
      assert after[i] == ConvertedRow(staged[i]);
    }
    assert records == projected;
  }

  /** When a clock fails, the staged rows keep only the rewritten clock text. */
  lemma RejectedClocks(rows: seq<Row>, home: Option<string>, away: Option<string>)
    requires !ClocksParse(rows)
    ensures forall i :: 0 <= i < |rows| ==> AfterConvert(StagedRows(rows, home, away))[i].clock == Normalize(rows[i].clock)
  {
    var staged := StagedRows(rows, home, away);
    assert forall i :: 0 <= i < |rows| ==> staged[i].clock == rows[i].clock;
    assert !ClocksParse(staged);
  }

  /** Some row of the table is at the location. */
  predicate HasRowAt(rows: seq<Row>, location: string)
  {
    exists i :: 0 <= i < |rows| && rows[i].location == location
  }

  /** Only one index is the first at a location. */
  lemma FirstAtUnique(rows: seq<Row>, location: string, a: nat, b: nat)
    requires FirstAt(rows, location, a) && FirstAt(rows, location, b)
    ensures a == b
  {
  }

  /** clean_df fails exactly when there is no 'h' row, then when there is no
      'v' row, and otherwise when some clock does not convert. */
  lemma CleanOutcome(rows: seq<Row>)
    ensures CleanSpec(rows) == Err(NoRowsAt("h")) <==> !HasRowAt(rows, "h")
    ensures CleanSpec(rows) == Err(NoRowsAt("v")) <==> HasRowAt(rows, "h") && !HasRowAt(rows, "v")
    ensures CleanSpec(rows) == Err(BadClock) <==> HasRowAt(rows, "h") && HasRowAt(rows, "v") && !ClocksParse(rows)
    ensures CleanSpec(rows).Ok? <==> HasRowAt(rows, "h") && HasRowAt(rows, "v") && ClocksParse(rows)
  {
  }

  /** A cleaned table has one record per row. */
  lemma CleanLength(rows: seq<Row>)
    requires CleanSpec(rows).Ok?
    ensures |CleanSpec(rows).value| == |rows|
  {
  }

  /** A cleaned table keeps the row count and order; record i carries the team
      codes of the first 'h' and first 'v' rows, the derived shot and score
      values, the converted clock, and row i's other exported columns. */
  lemma CleanedRecord(rows: seq<Row>, i: nat, h: nat, v: nat)
    requires CleanSpec(rows).Ok? && i < |rows|
    requires FirstAt(rows, "h", h) && FirstAt(rows, "v", v)
    ensures |CleanSpec(rows).value| == |rows|
    ensures var rec, r := CleanSpec(rows).value[i], rows[i];
      rec.home == rows[h].teamTricode && rec.away == rows[v].teamTricode &&
      rec.shotVal == ShotValue(r) && rec.scoreVal == ScoreValue(WithShot(r)) &&
      Convert(r.clock) == Some(rec.clock) &&
      rec.gameId == r.gameId && rec.playerNameI == r.playerNameI && rec.teamTricode == r.teamTricode &&
      rec.description == r.description && rec.actionType == r.actionType &&
      rec.isFieldGoal == r.isFieldGoal && rec.location == r.location && rec.carried == r.carried
  {
    var hk: nat :| FirstAt(rows, "h", hk) && FirstTeam(rows, "h").value == rows[hk].teamTricode;
    var vk: nat :| FirstAt(rows, "v", vk) && FirstTeam(rows, "v").value == rows[vk].teamTricode;
    FirstAtUnique(rows, "h", h, hk);
    FirstAtUnique(rows, "v", v, vk);
    var home, away := rows[h].teamTricode, rows[v].teamTricode;
    assert CleanSpec(rows) == Ok(CleanRows(rows, home, away));
    TeamsCommute(rows[i], home, away);
    var staged := Staged(rows[i], home, away);
    var c := Convert(rows[i].clock).value;
    assert CleanRows(rows, home, away)[i] == Project(staged.(clock := c));
  }

  /** A free throw is worth 1 and scores 0 when its description says MISS, else 1. */
  lemma FreeThrowValues(r: Row)
    requires r.actionType == "Free Throw"
    ensures WithScore(WithShot(r)).shotVal == Num(1)
    ensures WithScore(WithShot(r)).scoreVal == if Contains(r.description, "MISS") then Num(0) else Num(1)
  {
  }

  /** A field goal other than a free throw is worth 3 when its description says 3PT, else 2;
      for a board-marked non-field goal both columns are empty unless it is a Missed Shot. */
  lemma FieldGoalValues(r: Row)
    requires r.actionType != "Free Throw"
    ensures r.isFieldGoal == 1 ==> WithShot(r).shotVal == if Contains(r.description, "3PT") then Num(3) else Num(2)
    ensures r.isFieldGoal == 0 ==>
      WithShot(r).shotVal == Empty &&
      WithScore(WithShot(r)).scoreVal == (if r.actionType == "Missed Shot" then Num(0) else Empty)
  {
  }

  /** A made field goal scores exactly its value, 2 or 3. */
  lemma MadeFieldGoal(r: Row)
    requires r.actionType == "Made Shot" && r.isFieldGoal == 1
    ensures var s := WithScore(WithShot(r));
      s.scoreVal == s.shotVal && (s.shotVal == Num(2) || s.shotVal == Num(3))
  {
  }

  /** No mask of create_scoreval selects a field goal whose action is not a
      made shot, missed shot or free throw: its scoreVal is left as it was. */
  lemma UntouchedScore(r: Row)
    requires r.isFieldGoal == 1 && r.actionType != "Made Shot" && r.actionType != "Missed Shot" && r.actionType != "Free Throw"
    ensures WithScore(WithShot(r)).scoreVal == r.scoreVal
  {
  }

  /** For a row that has neither column before cleaning, whenever both values
      are numbers the score is between 0 and the shot's value. */
  lemma ScoreAtMostShot(r: Row)
    requires r.shotVal == Unset && r.scoreVal == Unset
    ensures var s := WithScore(WithShot(r));
      s.shotVal.Num? && s.scoreVal.Num? ==> 0 <= s.scoreVal.n <= s.shotVal.n
    ensures var s := WithScore(WithShot(r)); s.shotVal.Num? ==> s.shotVal.n in {1, 2, 3}
  {
  }
}
