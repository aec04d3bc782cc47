/** The play-by-play table: one row per action of a game, as pandas holds it
    after reading a game's JSON, and the 19-column record clean_df keeps. */
module Rows {
  import opened Wrappers

  /** A cell of a column the cleaner only carries along: NaN, a string or a number. */
  datatype Cell = Null | Text(s: string) | Number(n: int)

  /** shotVal and scoreVal: never assigned (NaN), assigned '' or assigned a number. */
  datatype Points = Unset | Empty | Num(n: int)

  /** The columns clean_df keeps but never reads: period, the running
      score, the shot subtype and the shot's coordinates and distance. */
  datatype Carried = Carried(
    period: Cell,
    scoreHome: Cell,
    scoreAway: Cell,
    subType: Cell,
    xLegacy: Cell,
    yLegacy: Cell,
    shotDistance: Cell)

  /** One row of the DataFrame. The fields the cleaner, loader or exporters
      read or write are typed, the kept pass-through cells sit in carried,
      and every other raw column sits in extra. A missing team code or
      player name is None (NaN). */
  datatype Row = Row(
    gameId: string,
    clock: string,
    home: Option<string>,
    away: Option<string>,
    playerNameI: Option<string>,
    teamTricode: Option<string>,
    description: string,
    actionType: string,
    isFieldGoal: int,
    shotVal: Points,
    scoreVal: Points,
    location: string,
    carried: Carried,
    extra: map<string, Cell>)

  /** A row of the cleaned table: exactly the export columns. */
  datatype Record = Record(
    gameId: string,
    clock: string,
    home: Option<string>,
    away: Option<string>,
    playerNameI: Option<string>,
    teamTricode: Option<string>,
    description: string,
    actionType: string,
    isFieldGoal: int,
    shotVal: Points,
    scoreVal: Points,
    location: string,
    carried: Carried)

  /** The columns clean_df keeps, in the order it keeps them. */
  const EXPORT_COLUMNS: seq<string> := ["game_id", "period", "clock", "home", "scoreHome", "away", "scoreAway",
    "playerNameI", "teamTricode", "description", "actionType", "subType",
    "xLegacy", "yLegacy", "shotDistance", "isFieldGoal", "shotVal", "scoreVal",
    "location"]

  function TextCell(o: Option<string>): Cell
  {
    match o
    case None => Null
    case Some(s) => Text(s)
  }

  function PointsCell(p: Points): Cell
  {
    match p
    case Unset => Null
    case Empty => Text("")
    case Num(n) => Number(n)
  }

  /** The cell of the column called name in a row, None when there is no such column. */
  function Column(r: Row, name: string): Option<Cell>
  {
    if name == "game_id" then Some(Text(r.gameId))
    else if name == "period" then Some(r.carried.period)
    else if name == "clock" then Some(Text(r.clock))
    else if name == "home" then Some(TextCell(r.home))
    else if name == "scoreHome" then Some(r.carried.scoreHome)
    else if name == "away" then Some(TextCell(r.away))
    else if name == "scoreAway" then Some(r.carried.scoreAway)
    else if name == "playerNameI" then Some(TextCell(r.playerNameI))
    else if name == "teamTricode" then Some(TextCell(r.teamTricode))
    else if name == "description" then Some(Text(r.description))
    else if name == "actionType" then Some(Text(r.actionType))
    else if name == "subType" then Some(r.carried.subType)
    else if name == "xLegacy" then Some(r.carried.xLegacy)
    else if name == "yLegacy" then Some(r.carried.yLegacy)
    else if name == "shotDistance" then Some(r.carried.shotDistance)
    else if name == "isFieldGoal" then Some(Number(r.isFieldGoal))
    else if name == "shotVal" then Some(PointsCell(r.shotVal))
    else if name == "scoreVal" then Some(PointsCell(r.scoreVal))
    else if name == "location" then Some(Text(r.location))
    else if name in r.extra then Some(r.extra[name])
    else None
  }

  /** The cell of the column called name in a cleaned record. */
  function Field(rec: Record, name: string): Option<Cell>
  {
    if name == "game_id" then Some(Text(rec.gameId))
    else if name == "period" then Some(rec.carried.period)
    else if name == "clock" then Some(Text(rec.clock))
    else if name == "home" then Some(TextCell(rec.home))
    else if name == "scoreHome" then Some(rec.carried.scoreHome)
    else if name == "away" then Some(TextCell(rec.away))
    else if name == "scoreAway" then Some(rec.carried.scoreAway)
    else if name == "playerNameI" then Some(TextCell(rec.playerNameI))
    else if name == "teamTricode" then Some(TextCell(rec.teamTricode))
    else if name == "description" then Some(Text(rec.description))
    else if name == "actionType" then Some(Text(rec.actionType))
    else if name == "subType" then Some(rec.carried.subType)
    else if name == "xLegacy" then Some(rec.carried.xLegacy)
    else if name == "yLegacy" then Some(rec.carried.yLegacy)
    else if name == "shotDistance" then Some(rec.carried.shotDistance)
    else if name == "isFieldGoal" then Some(Number(rec.isFieldGoal))
    else if name == "shotVal" then Some(PointsCell(rec.shotVal))
    else if name == "scoreVal" then Some(PointsCell(rec.scoreVal))
    else if name == "location" then Some(Text(rec.location))
    else None
  }

  /** df[export_columns] on one row. */
  function Project(r: Row): Record
  {
    Record(r.gameId, r.clock, r.home, r.away, r.playerNameI, r.teamTricode,
      r.description, r.actionType, r.isFieldGoal, r.shotVal, r.scoreVal,
      r.location, r.carried)
  }

  /** A projected record has exactly the export columns, each holding the
      row's cell of the same name; every other column is gone. */
  lemma ProjectSelects(r: Row, name: string)
    ensures Field(Project(r), name) == if name in EXPORT_COLUMNS then Column(r, name) else None
  {
  }

  /** The typed (header, cell) pairs of a record, in export-column order. */
  function Cells(rec: Record): (cs: seq<(string, Cell)>)
    ensures |cs| == |EXPORT_COLUMNS|
    ensures forall i :: 0 <= i < |cs| ==> cs[i].0 == EXPORT_COLUMNS[i] && Some(cs[i].1) == Field(rec, EXPORT_COLUMNS[i])
  {
    seq(|EXPORT_COLUMNS|, i requires 0 <= i < |EXPORT_COLUMNS| => (EXPORT_COLUMNS[i], Field(rec, EXPORT_COLUMNS[i]).value))
  }

  /** The typed export cells of a record determine it: every field of a
      cleaned record has its own export column, and no two field values share
      a typed cell. This is about the typed cells only; the CSV text, in which
      NaN and '' (or 1 and "1") print alike, is not modelled. */
  lemma CellsDetermine(a: Record, b: Record)
    requires Cells(a) == Cells(b)
    ensures a == b
  {
    SameFields(a, b);
    KeyFieldsAgree(a, b);
    OtherFieldsAgree(a, b);
  }

  /** Records with the same cells agree on every export column. */
  lemma SameFields(a: Record, b: Record)
    requires Cells(a) == Cells(b)
    ensures forall k :: 0 <= k < |EXPORT_COLUMNS| ==> Field(a, EXPORT_COLUMNS[k]) == Field(b, EXPORT_COLUMNS[k])
  {
    forall k | 0 <= k < |EXPORT_COLUMNS|
      ensures Field(a, EXPORT_COLUMNS[k]) == Field(b, EXPORT_COLUMNS[k])
    {
      assert Cells(a)[k] == Cells(b)[k];
    }
  }

  /** The text columns of records that agree on every export column. */
  lemma KeyFieldsAgree(a: Record, b: Record)
    requires forall k :: 0 <= k < |EXPORT_COLUMNS| ==> Field(a, EXPORT_COLUMNS[k]) == Field(b, EXPORT_COLUMNS[k])
    ensures a.gameId == b.gameId && a.clock == b.clock && a.home == b.home && a.away == b.away
    ensures a.playerNameI == b.playerNameI && a.teamTricode == b.teamTricode
  {
    assert Field(a, EXPORT_COLUMNS[0]) == Field(b, EXPORT_COLUMNS[0]);
    assert Field(a, EXPORT_COLUMNS[2]) == Field(b, EXPORT_COLUMNS[2]);
    assert Field(a, EXPORT_COLUMNS[3]) == Field(b, EXPORT_COLUMNS[3]);
    assert Field(a, EXPORT_COLUMNS[5]) == Field(b, EXPORT_COLUMNS[5]);
    assert Field(a, EXPORT_COLUMNS[7]) == Field(b, EXPORT_COLUMNS[7]);
    assert Field(a, EXPORT_COLUMNS[8]) == Field(b, EXPORT_COLUMNS[8]);
    TextCellInjective(a.home, b.home);
    TextCellInjective(a.away, b.away);
    TextCellInjective(a.playerNameI, b.playerNameI);
    TextCellInjective(a.teamTricode, b.teamTricode);
  }

  /** The remaining columns of records that agree on every export column. */
  lemma OtherFieldsAgree(a: Record, b: Record)
    requires forall k :: 0 <= k < |EXPORT_COLUMNS| ==> Field(a, EXPORT_COLUMNS[k]) == Field(b, EXPORT_COLUMNS[k])
    ensures a.description == b.description && a.actionType == b.actionType && a.isFieldGoal == b.isFieldGoal
    ensures a.shotVal == b.shotVal && a.scoreVal == b.scoreVal && a.location == b.location && a.carried == b.carried
  {
    assert Field(a, EXPORT_COLUMNS[1]) == Field(b, EXPORT_COLUMNS[1]);
    assert Field(a, EXPORT_COLUMNS[4]) == Field(b, EXPORT_COLUMNS[4]);
    assert Field(a, EXPORT_COLUMNS[6]) == Field(b, EXPORT_COLUMNS[6]);
    assert Field(a, EXPORT_COLUMNS[11]) == Field(b, EXPORT_COLUMNS[11]);
    assert Field(a, EXPORT_COLUMNS[12]) == Field(b, EXPORT_COLUMNS[12]);
    assert Field(a, EXPORT_COLUMNS[13]) == Field(b, EXPORT_COLUMNS[13]);
    assert Field(a, EXPORT_COLUMNS[14]) == Field(b, EXPORT_COLUMNS[14]);
    assert Field(a, EXPORT_COLUMNS[9]) == Field(b, EXPORT_COLUMNS[9]);
    assert Field(a, EXPORT_COLUMNS[10]) == Field(b, EXPORT_COLUMNS[10]);
    assert Field(a, EXPORT_COLUMNS[15]) == Field(b, EXPORT_COLUMNS[15]);
    assert Field(a, EXPORT_COLUMNS[16]) == Field(b, EXPORT_COLUMNS[16]);
    assert Field(a, EXPORT_COLUMNS[17]) == Field(b, EXPORT_COLUMNS[17]);
    assert Field(a, EXPORT_COLUMNS[18]) == Field(b, EXPORT_COLUMNS[18]);
    PointsCellInjective(a.shotVal, b.shotVal);
    PointsCellInjective(a.scoreVal, b.scoreVal);
  }

  lemma TextCellInjective(x: Option<string>, y: Option<string>)
    requires TextCell(x) == TextCell(y)
    ensures x == y
  {
  }

  lemma PointsCellInjective(x: Points, y: Points)
    requires PointsCell(x) == PointsCell(y)
    ensures x == y
  {
  }

  /** The export columns are 19 distinct names. */
  lemma ExportColumnsDistinct()
    ensures |EXPORT_COLUMNS| == 19
    ensures forall i, j :: 0 <= i < j < |EXPORT_COLUMNS| ==> EXPORT_COLUMNS[i] != EXPORT_COLUMNS[j]
  {
  }
}
