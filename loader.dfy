/** load_game: every game file of a season read into a table, tagged with the
    file's game id, cleaned by clean_df, and the cleaned tables concatenated
    in the order the files are listed. */
module Loader {
  import opened Wrappers
  import opened Text
  import opened Collections
  import opened Rows
  import opened Cleaner

  /** A game file as pd.read_json gives it: its name in the season's folder and its rows. */
  datatype RawFile = RawFile(name: string, rows: seq<Row>)

  /** Why load_game raises: pd.concat of no tables, or clean_df raising on a file. */
  datatype LoadError = NothingToConcatenate | CleanFailed(file: string, error: CleanError)

  /** file.split('.')[0]: the file name up to its first dot. */
  function GameId(name: string): string
  {
    Before(name, '.')
  }

  /** The table after temp_df['game_id'] = id. */
  function Tag(rows: seq<Row>, id: string): seq<Row>
  {
    seq(|rows|, i requires 0 <= i < |rows| => rows[i].(gameId := id))
  }

  /** clean_df on one tagged file, its error labelled with the file. */
  function CleanFile(f: RawFile): Result<seq<Record>, LoadError>
  {
    match CleanSpec(Tag(f.rows, GameId(f.name)))
    case Ok(records) => Ok(records)
    case Err(e) => Err(CleanFailed(f.name, e))
  }

  /** clean_df's outcome for each file, in the listed order. */
  function Outcomes(files: seq<RawFile>): seq<Result<seq<Record>, LoadError>>
  {
    seq(|files|, k requires 0 <= k < |files| => CleanFile(files[k]))
  }

  /** What load_game returns or raises for a list of files: the first file
      clean_df rejects, else pd.concat of the cleaned tables, which raises
      when there are none. */
  function LoadSpec(files: seq<RawFile>): Result<seq<Record>, LoadError>
  {
    match Collect(Outcomes(files))
    case Err(e) => Err(e)
    case Ok(games) => if games == [] then Err(NothingToConcatenate) else Ok(Flatten(games))
  }

  /** The number of rows of all the files together. */
  function RowCount(files: seq<RawFile>): nat
  {
    if files == [] then 0 else RowCount(files[..|files| - 1]) + |files[|files| - 1].rows|
  }

  /** load_game succeeds exactly when there is a file and every file cleans;
      pd.concat raises exactly when there is no file; any other failure is
      that of the first file clean_df rejects. */
  lemma LoadOutcome(files: seq<RawFile>)
    ensures LoadSpec(files).Ok? <==> files != [] && forall k :: 0 <= k < |files| ==> CleanFile(files[k]).Ok?
    ensures LoadSpec(files) == Err(NothingToConcatenate) <==> files == []
    ensures LoadSpec(files).Err? && files != [] ==>
      exists k :: 0 <= k < |files| && CleanFile(files[k]) == LoadSpec(files) &&
        forall j :: 0 <= j < k ==> CleanFile(files[j]).Ok?
  {
    var rs := Outcomes(files);
    assert |rs| == |files| && forall k :: 0 <= k < |files| ==> rs[k] == CleanFile(files[k]);
    CollectOk(rs);
    if Collect(rs).Err? {
      CollectFirstError(rs);
      var k :| 0 <= k < |rs| && rs[k] == Err(Collect(rs).error) && forall j :: 0 <= j < k ==> rs[j].Ok?;
      assert CleanFile(files[k]) == LoadSpec(files);
    }
  }

  /** A cleaned file keeps its row count, and each of its records carries the
      file's game id. */
  lemma CleanFileRows(f: RawFile, j: nat)
    requires CleanFile(f).Ok? && j < |f.rows|
    ensures |CleanFile(f).value| == |f.rows|
    ensures CleanFile(f).value[j].gameId == GameId(f.name)
  {
    var tagged := Tag(f.rows, GameId(f.name));
    var h := FirstIndex(tagged, "h");
    var v := FirstIndex(tagged, "v");
    CleanedRecord(tagged, j, h.value, v.value);
  }

  /** A cleaned file has as many records as rows. */
  lemma CleanFileLength(f: RawFile)
    requires CleanFile(f).Ok?
    ensures |CleanFile(f).value| == |f.rows|
  {
    CleanLength(Tag(f.rows, GameId(f.name)));
  }

  /** The loaded table has the rows of all the files, and the cleaned row j of
      file k sits right after the rows of the earlier files, with file k's game id. */
  lemma LoadedRow(files: seq<RawFile>, k: nat, j: nat)
    requires LoadSpec(files).Ok? && k < |files| && j < |files[k].rows|
    ensures CleanFile(files[k]).Ok? && |CleanFile(files[k]).value| == |files[k].rows|
    ensures |LoadSpec(files).value| == RowCount(files)
    ensures RowCount(files[..k]) + j < RowCount(files)
    ensures LoadSpec(files).value[RowCount(files[..k]) + j] == CleanFile(files[k]).value[j]
    ensures LoadSpec(files).value[RowCount(files[..k]) + j].gameId == GameId(files[k].name)
  {
    var rs := Outcomes(files);
    assert |rs| == |files| && forall m :: 0 <= m < |files| ==> rs[m] == CleanFile(files[m]);
    CollectOk(rs);
    var games := Collect(rs).value;
    assert LoadSpec(files) == Ok(Flatten(games));
    BlockLengths(files, games);
    BlockRow(files, games, k, j);
    CleanFileRows(files[k], j);
  }

  /** Row j of file k's cleaned table sits after the rows of the earlier files. */
  lemma BlockRow(files: seq<RawFile>, games: seq<seq<Record>>, k: nat, j: nat)
    requires |games| == |files| && forall m :: 0 <= m < |files| ==> |games[m]| == |files[m].rows|
    requires k < |files| && j < |files[k].rows|
    ensures |Flatten(games)| == RowCount(files)
    ensures RowCount(files[..k]) + j < RowCount(files)
    ensures Flatten(games)[RowCount(files[..k]) + j] == games[k][j]
  {
    SameCounts(files, games);
    SameCounts(files[..k], games[..k]);
    FlattenAt(games, k, j);
  }

  /** The cleaned tables are as long as their files. */
  lemma BlockLengths(files: seq<RawFile>, games: seq<seq<Record>>)
    requires |games| == |files| && forall m :: 0 <= m < |files| ==> CleanFile(files[m]) == Ok(games[m])
    ensures forall m :: 0 <= m < |files| ==> |games[m]| == |files[m].rows|
  {
    forall m | 0 <= m < |files| ensures |games[m]| == |files[m].rows| {
      CleanFileLength(files[m]);
    }
  }

  /** Blocks as long as the files' row lists have the files' row count in all. */
  lemma {:induction false} SameCounts(files: seq<RawFile>, games: seq<seq<Record>>)
    requires |games| == |files| && forall m :: 0 <= m < |files| ==> |games[m]| == |files[m].rows|
    ensures TotalLength(games) == RowCount(files)
  {
    if files != [] {
      SameCounts(files[..|files| - 1], games[..|games| - 1]);
    }
  }

  /** One pass of load_game's loop: the file's rows as a table, the game_id
      column set, and clean_df on the result. */
  method LoadFile(file: RawFile) returns (r: Result<seq<Record>, LoadError>)
    ensures r == CleanFile(file)
  {
    var df := new Row[|file.rows|](i requires 0 <= i < |file.rows| => file.rows[i]);
    var id := GameId(file.name);
    AssignWhere(df, (r: Row) => true, (r: Row) => r.(gameId := id));
    assert df[..] == Tag(file.rows, id);
    var cleaned := CleanDf(df);
    if cleaned.Err? {
      return Err(CleanFailed(file.name, cleaned.error));
    }
    return Ok(cleaned.value);
  }

  /** load_game: the files are handled one after another; the first file that
      clean_df rejects ends the whole load. */
  method LoadGame(files: seq<RawFile>) returns (r: Result<seq<Record>, LoadError>)
    ensures r == LoadSpec(files)
  {
    ghost var rs := Outcomes(files);
    var games: seq<seq<Record>> := [];
    for k := 0 to |files|
      invariant Collect(rs[..k]) == Ok(games)
    {
      var cleaned := LoadFile(files[k]);
      assert rs[..k + 1][..k] == rs[..k] && rs[k] == cleaned;
      if cleaned.Err? {
        CollectPrefix(rs, k + 1);
        return cleaned;
      }
      games := games + [cleaned.value];
    }
    assert rs[..|files|] == rs;
    if games == [] {
      return Err(NothingToConcatenate);
    }
    return Ok(Flatten(games));
  }
}
