/** save_by_team, save_by_player and save_by_teamplayer: the combined season
    table is read back from its CSV file and split into per-team, per-player
    and per-(team, player) tables. Each to_csv call is modelled as a Write of
    a path and the selected rows, returned in the order the source makes them. */
module Exporters {
  import opened Wrappers
  import opened Text
  import opened Collections
  import opened Rows

  /** One to_csv call: the file written and the rows in it. */
  datatype Write = Write(path: string, rows: seq<Record>)

  const PROCESSED: string := "../../data/processed/"

  /** The strings pd.read_csv reads as NaN by default; to_csv writes NaN as "". */
  const NA_VALUES: set<string> := {"", "#N/A", "#N/A N/A", "#NA", "-1.#IND", "-1.#QNAN", "-NaN", "-nan",
    "1.#IND", "1.#QNAN", "<NA>", "N/A", "NA", "NULL", "NaN", "None", "n/a", "nan", "null"}

  /** A string cell written by to_csv and read back by read_csv. */
  function ReadText(o: Option<string>): (r: Option<string>)
    ensures r.Some? ==> r.value !in NA_VALUES
    ensures r == None <==> o == None || o.value in NA_VALUES
    ensures r.Some? ==> r == o
  {
    if o.Some? && o.value in NA_VALUES then None else o
  }

  /** A points cell read back: '' becomes NaN, numbers stay. */
  function ReadPoints(p: Points): (r: Points)
    ensures r != Empty
    ensures r == Unset <==> p == Unset || p == Empty
    ensures r.Num? <==> p.Num?
    ensures r.Num? ==> r == p
  {
    if p == Empty then Unset else p
  }

  /** A record after the round trip through the season's CSV file, as far as
      the exporters can tell: the columns they select on and the point cells. */
  function ReadRecord(rec: Record): Record
  {
    rec.(home := ReadText(rec.home), away := ReadText(rec.away),
      playerNameI := ReadText(rec.playerNameI), teamTricode := ReadText(rec.teamTricode),
      shotVal := ReadPoints(rec.shotVal), scoreVal := ReadPoints(rec.scoreVal))
  }

  /** df = pd.read_csv(fp) on the file the combined table was written to. */
  function ReadBack(table: seq<Record>): seq<Record>
  {
    seq(|table|, i requires 0 <= i < |table| => ReadRecord(table[i]))
  }

  /** Reading back a table read back changes nothing, and keeps its rows in place. */
  lemma ReadBackStable(table: seq<Record>)
    ensures |ReadBack(table)| == |table|
    ensures ReadBack(ReadBack(table)) == ReadBack(table)
  {
    var once := ReadBack(table);
    forall i | 0 <= i < |table| ensures ReadRecord(once[i]) == once[i] {
    }
  }

  /** No key read back is one of the strings read_csv takes for NaN. */
  lemma ReadBackKeys(table: seq<Record>, i: nat)
    requires i < |table|
    ensures |ReadBack(table)| == |table|
    ensures ReadBack(table)[i].home == ReadText(table[i].home)
    ensures ReadBack(table)[i].away == ReadText(table[i].away)
    ensures ReadBack(table)[i].playerNameI == ReadText(table[i].playerNameI)
    ensures ReadBack(table)[i].teamTricode == ReadText(table[i].teamTricode)
    ensures ReadBack(table)[i].playerNameI != Some("") && ReadBack(table)[i].teamTricode != Some("")
  {
  }

  /** The round trip through the season's CSV file keeps every column the
      exporters do not select on, and does not change which rows a team, a
      player or a team code selects, for any key read_csv does not take for
      NaN; a key it does take for NaN selects nothing afterwards. */
  lemma ReadBackSelects(table: seq<Record>, t: string, i: nat)
    requires i < |table|
    ensures |ReadBack(table)| == |table|
    ensures var back, rec := ReadBack(table)[i], table[i];
      back.gameId == rec.gameId && back.clock == rec.clock && back.description == rec.description &&
      back.actionType == rec.actionType && back.isFieldGoal == rec.isFieldGoal &&
      back.location == rec.location && back.carried == rec.carried
    ensures t !in NA_VALUES ==>
      (InTeam(ReadBack(table)[i], t) <==> InTeam(table[i], t)) &&
      (ReadBack(table)[i].playerNameI == Some(t) <==> table[i].playerNameI == Some(t)) &&
      (ReadBack(table)[i].teamTricode == Some(t) <==> table[i].teamTricode == Some(t))
    ensures t in NA_VALUES ==>
      !InTeam(ReadBack(table)[i], t) && ReadBack(table)[i].playerNameI != Some(t) &&
      ReadBack(table)[i].teamTricode != Some(t)
  {
  }

  // ---------------------------------------------------------------- save_by_team

  /** The home column. */
  function Homes(rows: seq<Record>): seq<Option<string>>
  {
    seq(|rows|, i requires 0 <= i < |rows| => rows[i].home)
  }

  /** pd.Series(df['home'].unique()).sort_values().dropna(). */
  function Teams(rows: seq<Record>): seq<string>
  {
    SortedDistinct(Present(Homes(rows)))
  }

  /** (df['home'] == team) | (df['away'] == team) on one row. */
  predicate InTeam(r: Record, t: string)
  {
    r.home == Some(t) || r.away == Some(t)
  }

  /** df[(df['home'] == team) | (df['away'] == team)]. */
  function TeamRows(rows: seq<Record>, t: string): seq<Record>
  {
    if rows == [] then [] else (if InTeam(rows[0], t) then [rows[0]] else []) + TeamRows(rows[1..], t)
  }

  /** A team's file holds exactly the rows where the team plays home or away. */
  lemma {:induction false} TeamRowsMembers(rows: seq<Record>, t: string)
    ensures forall x :: x in TeamRows(rows, t) <==> x in rows && InTeam(x, t)
  {
    if rows != [] {
      TeamRowsMembers(rows[1..], t);
      assert forall x :: x in rows <==> x == rows[0] || x in rows[1..];
    }
  }

  function TeamPath(season: string, t: string): string
  {
    PROCESSED + season + "/team/" + t + "_games.csv"
  }

  /** The file save_by_team writes for team t. */
  function TeamFile(rows: seq<Record>, season: string, t: string): Write
  {
    Write(TeamPath(season, t), TeamRows(rows, t))
  }

  /** The files save_by_team writes, in the order it writes them. */
  function TeamFiles(table: seq<Record>, season: string): seq<Write>
  {
    var rows := ReadBack(table);
    var teams := Teams(rows);
    seq(|teams|, k requires 0 <= k < |teams| => TeamFile(rows, season, teams[k]))
  }

  /** save_by_team: one file per team, written in sorted team order. */
  method SaveByTeam(table: seq<Record>, season: string) returns (writes: seq<Write>)
    ensures writes == TeamFiles(table, season)
  {
    var df := ReadBack(table);
    var teams := Teams(df);
    writes := [];
    for k := 0 to |teams|
      invariant writes == TeamFiles(table, season)[..k]
    {
      TeamFilesStep(table, season, k);
      writes := writes + [TeamFile(df, season, teams[k])];
    }
    TeamFilesStep(table, season, |teams|);
  }

  /** save_by_team's output grows by one team's file at a time. */
  lemma TeamFilesStep(table: seq<Record>, season: string, k: nat)
    requires k <= |Teams(ReadBack(table))|
    ensures |TeamFiles(table, season)| == |Teams(ReadBack(table))|
    ensures k == |Teams(ReadBack(table))| ==> TeamFiles(table, season)[..k] == TeamFiles(table, season)
    ensures k < |Teams(ReadBack(table))| ==>
      TeamFiles(table, season)[..k + 1] ==
        TeamFiles(table, season)[..k] + [TeamFile(ReadBack(table), season, Teams(ReadBack(table))[k])]
  {
    if k < |Teams(ReadBack(table))| {
      PrefixStep(TeamFiles(table, season), k);
    }
  }

  /** Selecting a team's rows from a concatenation selects from each part in
      turn: the rows keep their original order. */
  lemma {:induction false} TeamRowsOrder(xs: seq<Record>, ys: seq<Record>, t: string)
    ensures TeamRows(xs + ys, t) == TeamRows(xs, t) + TeamRows(ys, t)
  {
    if xs == [] {
      assert xs + ys == ys;
    } else {
      var x, rest := xs[0], xs[1..];
      assert (xs + ys)[0] == x && (xs + ys)[1..] == rest + ys;
      TeamRowsOrder(rest, ys, t);
      var head := if InTeam(x, t) then [x] else [];
      assert TeamRows(xs + ys, t) == head + (TeamRows(rest, t) + TeamRows(ys, t));
      assert TeamRows(xs, t) == head + TeamRows(rest, t);
    }
  }

  /** The teams exported are the present home codes, each once, in increasing
      order; a team that only ever plays away gets no file. */
  lemma TeamsAreHomes(table: seq<Record>, t: string)
    ensures StrictlySorted(Teams(ReadBack(table))) && Distinct(Teams(ReadBack(table)))
    ensures t in Teams(ReadBack(table)) <==>
      exists i :: 0 <= i < |table| && ReadBack(table)[i].home == Some(t)
    ensures t in Teams(ReadBack(table)) ==> t !in NA_VALUES
  {
    var rows := ReadBack(table);
    SortedIsDistinct(Teams(rows));
    if t in Teams(rows) {
      var i :| 0 <= i < |rows| && Homes(rows)[i] == Some(t);
      assert rows[i].home == Some(t);
    }
    if exists i :: 0 <= i < |table| && rows[i].home == Some(t) {
      var i :| 0 <= i < |table| && rows[i].home == Some(t);
      assert Homes(rows)[i] == Some(t);
    }
  }

  /** save_by_team's teams, in terms of the table that was written: exactly
      the home codes that are not NaN strings. */
  lemma TeamsOfTable(table: seq<Record>, t: string)
    ensures t in Teams(ReadBack(table)) <==>
      t !in NA_VALUES && exists i :: 0 <= i < |table| && table[i].home == Some(t)
  {
    TeamsAreHomes(table, t);
    if exists i :: 0 <= i < |table| && ReadBack(table)[i].home == Some(t) {
      var i :| 0 <= i < |table| && ReadBack(table)[i].home == Some(t);
      ReadBackSelects(table, t, i);
    }
    if t !in NA_VALUES && exists i :: 0 <= i < |table| && table[i].home == Some(t) {
      var i :| 0 <= i < |table| && table[i].home == Some(t);
      ReadBackSelects(table, t, i);
    }
  }

  /** In how many of the teams ts a row is selected. */
  function Memberships(r: Record, ts: seq<string>): nat
  {
    if ts == [] then 0 else (if InTeam(r, ts[0]) then 1 else 0) + Memberships(r, ts[1..])
  }

  lemma {:induction false} MembershipsBound(r: Record, ts: seq<string>)
    ensures Memberships(r, ts) <= Occurrences(ts, r.home) + Occurrences(ts, r.away)
    ensures r.home.Some? && r.home.value in ts ==> Memberships(r, ts) >= 1
  {
    if ts != [] {
      MembershipsBound(r, ts[1..]);
      if r.home.Some? && r.home.value in ts && r.home.value != ts[0] {
        assert r.home.value in ts[1..];
      }
    }
  }

  /** A row with a home code is in its home team's file, and no row is in
      more than two team files. */
  lemma TeamPartition(table: seq<Record>, season: string, i: nat)
    requires i < |table|
    ensures Memberships(ReadBack(table)[i], Teams(ReadBack(table))) <= 2
    ensures ReadBack(table)[i].home.Some? ==>
      exists k :: 0 <= k < |TeamFiles(table, season)| &&
        TeamFiles(table, season)[k].path == TeamPath(season, ReadBack(table)[i].home.value) &&
        ReadBack(table)[i] in TeamFiles(table, season)[k].rows
  {
    var rows := ReadBack(table);
    var teams := Teams(rows);
    var r := rows[i];
    TeamsAreHomes(table, "");
    MembershipsBound(r, teams);
    OccurrencesAtMostOne(teams, r.home);
    OccurrencesAtMostOne(teams, r.away);
    if r.home.Some? {
      TeamsAreHomes(table, r.home.value);
      var k :| 0 <= k < |teams| && teams[k] == r.home.value;
      TeamRowsMembers(rows, teams[k]);
      assert TeamFiles(table, season)[k] == Write(TeamPath(season, teams[k]), TeamRows(rows, teams[k]));
    }
  }

  // -------------------------------------------------------------- save_by_player

  function PlayerName(r: Record): Option<string>
  {
    r.playerNameI
  }

  function TeamCode(r: Record): Option<string>
  {
    r.teamTricode
  }

  /** The playerNameI column. */
  function Names(rows: seq<Record>): seq<Option<string>>
  {
    seq(|rows|, i requires 0 <= i < |rows| => rows[i].playerNameI)
  }

  /** pd.Series(df['playerNameI'].unique()).sort_values().dropna(). */
  function Players(rows: seq<Record>): seq<string>
  {
    SortedDistinct(Present(Names(rows)))
  }

  /** df[df['playerNameI'] == player]. */
  function PlayerRows(rows: seq<Record>, p: string): seq<Record>
  {
    KeyRows(rows, PlayerName, p)
  }

  /** str(player).replace(' ', ''). */
  function FileName(p: string): string
  {
    Replace(p, ' ', "")
  }

  function PlayerPath(season: string, p: string): string
  {
    PROCESSED + season + "/player/" + FileName(p) + "_play-by-play.csv"
  }

  /** The file save_by_player writes for player p. */
  function PlayerFile(rows: seq<Record>, season: string, p: string): Write
  {
    Write(PlayerPath(season, p), PlayerRows(rows, p))
  }

  /** The files save_by_player writes, in the order it writes them. */
  function PlayerFiles(table: seq<Record>, season: string): seq<Write>
  {
    var rows := ReadBack(table);
    var players := Players(rows);
    seq(|players|, k requires 0 <= k < |players| => PlayerFile(rows, season, players[k]))
  }

  /** save_by_player: one file per player, in sorted name order. */
  method SaveByPlayer(table: seq<Record>, season: string) returns (writes: seq<Write>)
    ensures writes == PlayerFiles(table, season)
  {
    var df := ReadBack(table);
    var players := Players(df);
    writes := [];
    for k := 0 to |players|
      invariant writes == PlayerFiles(table, season)[..k]
    {
      PlayerFilesStep(table, season, k);
      writes := writes + [PlayerFile(df, season, players[k])];
    }
    PlayerFilesStep(table, season, |players|);
  }

  /** save_by_player's output grows by one player's file at a time. */
  lemma PlayerFilesStep(table: seq<Record>, season: string, k: nat)
    requires k <= |Players(ReadBack(table))|
    ensures |PlayerFiles(table, season)| == |Players(ReadBack(table))|
    ensures k == |Players(ReadBack(table))| ==> PlayerFiles(table, season)[..k] == PlayerFiles(table, season)
    ensures k < |Players(ReadBack(table))| ==>
      PlayerFiles(table, season)[..k + 1] ==
        PlayerFiles(table, season)[..k] + [PlayerFile(ReadBack(table), season, Players(ReadBack(table))[k])]
  {
    if k < |Players(ReadBack(table))| {
      PrefixStep(PlayerFiles(table, season), k);
    }
  }

  /** The player files split the rows that carry a name: each such row lies
      in exactly one player's file. */
  lemma PlayerPartition(rows: seq<Record>)
    ensures Bag(rows, PlayerName, Players(rows)) == multiset(Keyed(rows, PlayerName))
  {
    SortedIsDistinct(Players(rows));
    NamesCovered(rows);
    PartitionByKey(rows, PlayerName, Players(rows));
  }

  /** The players are the present names, each once, in increasing order. */
  lemma PlayersListed(rows: seq<Record>)
    ensures StrictlySorted(Players(rows)) && Distinct(Players(rows))
    ensures forall p :: p in Players(rows) <==> Some(p) in Names(rows)
  {
    SortedIsDistinct(Players(rows));
  }

  /** save_by_player's players, in terms of the table that was written:
      exactly the player names that are not NaN strings. */
  lemma PlayersOfTable(table: seq<Record>, p: string)
    ensures p in Players(ReadBack(table)) <==>
      p !in NA_VALUES && exists i :: 0 <= i < |table| && table[i].playerNameI == Some(p)
  {
    var rows := ReadBack(table);
    PlayersListed(rows);
    if p in Players(rows) {
      var i :| 0 <= i < |rows| && Names(rows)[i] == Some(p);
      ReadBackSelects(table, p, i);
    }
    if p !in NA_VALUES && exists i :: 0 <= i < |table| && table[i].playerNameI == Some(p) {
      var i :| 0 <= i < |table| && table[i].playerNameI == Some(p);
      ReadBackSelects(table, p, i);
      assert Names(rows)[i] == Some(p);
    }
  }

  /** A player's file holds exactly the rows with that name, and a row with a
      name lies in the files of no other player. */
  lemma PlayerRowsMembers(rows: seq<Record>, p: string)
    ensures forall x :: x in PlayerRows(rows, p) <==> x in rows && x.playerNameI == Some(p)
    ensures forall x :: x in Keyed(rows, PlayerName) <==> x in rows && x.playerNameI.Some?
  {
    KeyRowsMembers(rows, PlayerName, p);
    KeyedMembers(rows, PlayerName);
  }

  /** Every name in the table is one of the players listed. */
  lemma NamesCovered(rows: seq<Record>)
    ensures forall x :: x in rows && PlayerName(x).Some? ==> PlayerName(x).value in Players(rows)
  {
    forall x | x in rows && PlayerName(x).Some? ensures PlayerName(x).value in Players(rows) {
      var i :| 0 <= i < |rows| && rows[i] == x;
      assert Names(rows)[i] == x.playerNameI;
    }
  }

  /** File names hold no spaces: a name without spaces is kept as it is,
      and the spaces of a name are simply dropped, so two names that differ
      only in their spaces are written to the same path. */
  lemma FileNameSpaces(a: string, b: string)
    ensures ' ' !in FileName(a)
    ensures ' ' !in a ==> FileName(a) == a
    ensures FileName(a + " " + b) == FileName(a + b)
  {
    if ' ' !in a {
      ReplaceAbsent(a, ' ', "");
    }
    assert Replace(" ", ' ', "") == "" by {
      assert " "[1..] == "";
    }
    ReplaceAppend(a, " ", ' ', "");
    assert FileName(a + " ") == FileName(a);
    ReplaceAppend(a + " ", b, ' ', "");
    ReplaceAppend(a, b, ' ', "");
  }

  /** Different names without spaces are written to different player files. */
  lemma PlayerPathsDiffer(season: string, p: string, q: string)
    requires ' ' !in p && ' ' !in q && p != q
    ensures PlayerPath(season, p) != PlayerPath(season, q)
  {
    FileNameSpaces(p, "");
    FileNameSpaces(q, "");
    var front := PROCESSED + season + "/player/";
    var back := "_play-by-play.csv";
    assert PlayerPath(season, p) == front + p + back;
    assert PlayerPath(season, q) == front + q + back;
    if |p| != |q| {
      assert |front + p + back| != |front + q + back|;
    } else {
      var i :| 0 <= i < |p| && p[i] != q[i];
      assert (front + p + back)[|front| + i] == p[i];
      assert (front + q + back)[|front| + i] == q[i];
    }
  }

  // ----------------------------------------------------------- save_by_teamplayer

  /** The teamTricode column. */
  function Codes(rows: seq<Record>): seq<Option<string>>
  {
    seq(|rows|, i requires 0 <= i < |rows| => rows[i].teamTricode)
  }

  /** The entries of pd.Series(player_df['teamTricode'].unique()) that are
      strings, in the order the loop meets them. */
  function PlayerTeams(rows: seq<Record>, p: string): seq<string>
  {
    Present(Unique(Codes(PlayerRows(rows, p))))
  }

  function PairPath(season: string, t: string, p: string): string
  {
    PROCESSED + season + "/teamplayer/" + t + "_" + FileName(p) + "_games.csv"
  }

  /** The files written for player p, one per team code in ts:
      player_df[player_df['teamTricode'] == team]. */
  function PairFiles(rows: seq<Record>, season: string, p: string, ts: seq<string>): seq<Write>
  {
    if ts == [] then []
    else
      PairFiles(rows, season, p, ts[..|ts| - 1]) +
        [Write(PairPath(season, ts[|ts| - 1], p), KeyRows(PlayerRows(rows, p), TeamCode, ts[|ts| - 1]))]
  }

  /** The files written for each player, in sorted player order. */
  function PlayerBlocks(rows: seq<Record>, season: string): seq<seq<Write>>
  {
    var players := Players(rows);
    seq(|players|, k requires 0 <= k < |players| => PairFiles(rows, season, players[k], PlayerTeams(rows, players[k])))
  }

  /** The files save_by_teamplayer writes, in the order it writes them. */
  function TeamPlayerFiles(table: seq<Record>, season: string): seq<Write>
  {
    Flatten(PlayerBlocks(ReadBack(table), season))
  }

  /** The inner loop of save_by_teamplayer: the team codes of one player's
      rows, skipping the ones that are not strings. */
  method SavePlayerTeams(df: seq<Record>, season: string, p: string) returns (writes: seq<Write>)
    ensures writes == PairFiles(df, season, p, PlayerTeams(df, p))
  {
    var playerDf := PlayerRows(df, p);
    var teams := Unique(Codes(playerDf));
    writes := [];
    for j := 0 to |teams|
      invariant writes == PairFiles(df, season, p, Present(teams[..j]))
    {
      PairFilesStep(df, season, p, teams, j);
      if teams[j].Some? {
        var team := teams[j].value;
        writes := writes + [Write(PairPath(season, team, p), KeyRows(playerDf, TeamCode, team))];
      }
    }
    assert teams[..|teams|] == teams;
  }

  /** One more entry of unique() adds a file exactly when it is a string. */
  lemma PairFilesStep(rows: seq<Record>, season: string, p: string, codes: seq<Option<string>>, j: nat)
    requires j < |codes|
    ensures codes[j].None? ==> PairFiles(rows, season, p, Present(codes[..j + 1])) == PairFiles(rows, season, p, Present(codes[..j]))
    ensures codes[j].Some? ==>
      PairFiles(rows, season, p, Present(codes[..j + 1])) ==
      PairFiles(rows, season, p, Present(codes[..j])) +
      [Write(PairPath(season, codes[j].value, p), KeyRows(PlayerRows(rows, p), TeamCode, codes[j].value))]
  {
    var prefix := codes[..j + 1];
    assert prefix[..j] == codes[..j] && prefix[j] == codes[j];
    var shown := Present(codes[..j]);
    if codes[j].Some? {
      var team := codes[j].value;
      assert Present(prefix) == shown + [team];
      assert (shown + [team])[..|shown|] == shown;
    } else {
      assert Present(prefix) == shown;
    }
  }

  /** save_by_teamplayer: for each player in sorted order, one file per team
      code of that player's rows. */
  method SaveByTeamPlayer(table: seq<Record>, season: string) returns (writes: seq<Write>)
    ensures writes == TeamPlayerFiles(table, season)
  {
    var df := ReadBack(table);
    var players := Players(df);
    ghost var blocks := PlayerBlocks(df, season);
    writes := [];
    for k := 0 to |players|
      invariant writes == Flatten(blocks[..k])
    {
      var more := SavePlayerTeams(df, season, players[k]);
      assert blocks[..k + 1][..k] == blocks[..k];
      writes := writes + more;
    }
    assert blocks[..|players|] == blocks;
  }

  /** A player's team codes are the string codes of the player's rows, each
      once, in the order in which they first appear. */
  lemma PlayerTeamsOrder(rows: seq<Record>, p: string)
    ensures PlayerTeams(rows, p) == Unique(Present(Codes(PlayerRows(rows, p))))
    ensures Distinct(PlayerTeams(rows, p))
    ensures forall t :: t in PlayerTeams(rows, p) <==> Some(t) in Codes(PlayerRows(rows, p))
    ensures forall i, j :: 0 <= i < j < |PlayerTeams(rows, p)| ==>
      IndexOf(Present(Codes(PlayerRows(rows, p))), PlayerTeams(rows, p)[i]) <
      IndexOf(Present(Codes(PlayerRows(rows, p))), PlayerTeams(rows, p)[j])
  {
    var codes := Codes(PlayerRows(rows, p));
    PresentUnique(codes);
    UniqueFirstAppearance(Present(codes));
  }

  /** The files written for player p split that player's rows with a team
      code: each such row lies in exactly one of them. */
  lemma PairPartition(rows: seq<Record>, p: string)
    ensures Bag(PlayerRows(rows, p), TeamCode, PlayerTeams(rows, p)) == multiset(Keyed(PlayerRows(rows, p), TeamCode))
  {
    var prows := PlayerRows(rows, p);
    PresentDistinct(Unique(Codes(prows)));
    CodesCovered(prows);
    PartitionByKey(prows, TeamCode, PlayerTeams(rows, p));
  }

  /** Every string code of a table is among the string codes its unique() lists. */
  lemma CodesCovered(xs: seq<Record>)
    ensures forall x :: x in xs && TeamCode(x).Some? ==> TeamCode(x).value in Present(Unique(Codes(xs)))
  {
    forall x | x in xs && TeamCode(x).Some? ensures TeamCode(x).value in Present(Unique(Codes(xs))) {
      var i :| 0 <= i < |xs| && xs[i] == x;
      assert Codes(xs)[i] == x.teamTricode;
    }
  }

  /** The file for player p and team t holds exactly the player's rows with that code. */
  lemma PairRowsMembers(rows: seq<Record>, p: string, t: string)
    ensures forall x :: x in KeyRows(PlayerRows(rows, p), TeamCode, t) <==>
      x in rows && x.playerNameI == Some(p) && x.teamTricode == Some(t)
  {
    KeyRowsMembers(rows, PlayerName, p);
    KeyRowsMembers(PlayerRows(rows, p), TeamCode, t);
  }

  /** The k-th file written for player p is the one for the k-th team code. */
  lemma {:induction false} PairFilesAt(rows: seq<Record>, season: string, p: string, ts: seq<string>, k: nat)
    requires k < |ts|
    ensures |PairFiles(rows, season, p, ts)| == |ts|
    ensures PairFiles(rows, season, p, ts)[k] ==
      Write(PairPath(season, ts[k], p), KeyRows(PlayerRows(rows, p), TeamCode, ts[k]))
  {
    var init := ts[..|ts| - 1];
    if k < |ts| - 1 {
      PairFilesAt(rows, season, p, init, k);
    } else {
      PairFilesLength(rows, season, p, init);
    }
  }

  lemma {:induction false} PairFilesLength(rows: seq<Record>, season: string, p: string, ts: seq<string>)
    ensures |PairFiles(rows, season, p, ts)| == |ts|
  {
    if ts != [] {
      PairFilesLength(rows, season, p, ts[..|ts| - 1]);
    }
  }
}
