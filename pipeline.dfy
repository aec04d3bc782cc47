/** The processor script end to end, and facts that span the crawler and
    the processor: the file the crawler saves for a game is read back by
    load_game under that game's id, and the points of every row load_game
    produces are consistent. */
module Pipeline {
  import opened Wrappers
  import opened Text
  import opened Rows
  import opened Cleaner
  import opened Loader
  import opened Exporters
  import Crawler

  /** The game id load_game derives from the file save_json writes for game n. */
  lemma SavedGameId(n: int)
    ensures GameId(Crawler.SaveName(n)) == "S2425-G" + Crawler.Pad4(n)
  {
    var stem := "S2425-G" + Crawler.Pad4(n);
    Crawler.Pad4NoDot(n);
    assert '.' !in stem by {
      assert forall i :: 0 <= i < 7 ==> stem[i] == "S2425-G"[i];
      assert forall i :: 7 <= i < |stem| ==> stem[i] == Crawler.Pad4(n)[i - 7];
    }
    assert Crawler.SaveName(n) == stem + ['.'] + "json";
    BeforeAt(stem, '.', "json");
  }

  /** Every row of a crawled game file loads tagged with that game's id. */
  lemma LoadedGameId(files: seq<RawFile>, k: nat, j: nat, n: int)
    requires LoadSpec(files).Ok? && k < |files| && j < |files[k].rows|
    requires files[k].name == Crawler.SaveName(n)
    ensures RowCount(files[..k]) + j < |LoadSpec(files).value|
    ensures LoadSpec(files).value[RowCount(files[..k]) + j].gameId == "S2425-G" + Crawler.Pad4(n)
  {
    LoadedRow(files, k, j);
    SavedGameId(n);
  }

  /** In the loaded table a row's points scored never exceed its shot's
      value, and a shot is worth 1, 2 or 3 (the raw files carry neither
      column, so both start unset). */
  lemma LoadedPoints(files: seq<RawFile>, k: nat, j: nat)
    requires LoadSpec(files).Ok? && k < |files| && j < |files[k].rows|
    requires files[k].rows[j].shotVal == Unset && files[k].rows[j].scoreVal == Unset
    ensures RowCount(files[..k]) + j < |LoadSpec(files).value|
    ensures var rec := LoadSpec(files).value[RowCount(files[..k]) + j];
      (rec.shotVal.Num? && rec.scoreVal.Num? ==> 0 <= rec.scoreVal.n <= rec.shotVal.n) &&
      (rec.shotVal.Num? ==> rec.shotVal.n in {1, 2, 3})
  {
    LoadedRow(files, k, j);
    var f := files[k];
    var tagged := Tag(f.rows, GameId(f.name));
    var h := FirstIndex(tagged, "h");
    var v := FirstIndex(tagged, "v");
    CleanedRecord(tagged, j, h.value, v.value);
    ScoreAtMostShot(tagged[j]);
  }

  /** The season folder the exporters fall back to: the script calls them
      with the combined table's path only. */
  const DEFAULT_SEASON: string := "S2425"

  /** What the script leaves behind: the combined table and the files of
      save_by_team, save_by_player and save_by_teamplayer. */
  datatype Output = Output(table: seq<Record>, teams: seq<Write>, players: seq<Write>, pairs: seq<Write>)

  /** The script: load_game over the listed files, then the three exporters
      on the table written out and read back; a failing load_game ends it
      before any exporter runs. */
  method ProcessSeason(files: seq<RawFile>) returns (r: Result<Output, LoadError>)
    ensures r.Err? <==> LoadSpec(files).Err?
    ensures r.Err? ==> r.error == LoadSpec(files).error
    ensures r.Ok? ==>
      var table := LoadSpec(files).value;
      r.value == Output(table, TeamFiles(table, DEFAULT_SEASON), PlayerFiles(table, DEFAULT_SEASON),
        TeamPlayerFiles(table, DEFAULT_SEASON))
  {
    var loaded := LoadGame(files);
    if loaded.Err? {
      return Err(loaded.error);
    }
    var table := loaded.value;
    var teams := SaveByTeam(table, DEFAULT_SEASON);
    var players := SaveByPlayer(table, DEFAULT_SEASON);
    var pairs := SaveByTeamPlayer(table, DEFAULT_SEASON);
    return Ok(Output(table, teams, players, pairs));
  }
}
