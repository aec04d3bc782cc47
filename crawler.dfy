/** The crawler's identifier arithmetic: the season's 1230 game URLs, the
    game number to URL lookup, the name of the file a game's play-by-play is
    saved to, the key path into the page's JSON, and the ranges of game
    numbers the export loops visit. Fetching and parsing pages is a
    parameter: a function from a URL to the page's parsed JSON, if any. */
module Crawler {
  import opened Wrappers
  import opened Text

  const URL_START: string := "https://www.nba.com/game/002"
  const URL_END: string := "/game-charts"
  const GAME_NUM_BASE: nat := 22400001
  const TOTAL_GAMES: nat := 1230
  const EXPORT_PATH: string := "../../data/raw/S2425/"

  /** int(s) on the strings the model admits: a non-empty run of decimal digits. */
  function ParseInt(s: string): Option<nat>
  {
    if |s| >= 1 && AllDigits(s) then Some(Value(s)) else None
  }

  /** int(str(n)) == n. */
  lemma ParseDecimal(n: nat)
    ensures ParseInt(Decimal(n)) == Some(n)
  {
  }

  /** URL_START + str(number) + URL_END. */
  function GameUrl(number: nat): string
  {
    URL_START + Decimal(number) + URL_END
  }

  /** The game number inside a game URL, read back. */
  function UrlNumber(url: string): Option<nat>
  {
    if |url| >= |URL_START| + |URL_END| && url[..|URL_START|] == URL_START && url[|url| - |URL_END|..] == URL_END
    then ParseInt(url[|URL_START|..|url| - |URL_END|])
    else None
  }

  /** A URL reads back the number it was built from. */
  lemma UrlRoundTrip(number: nat)
    ensures UrlNumber(GameUrl(number)) == Some(number)
  {
    var d := Decimal(number);
    var url := GameUrl(number);
    assert url[..|URL_START|] == URL_START;
    assert url[|url| - |URL_END|..] == URL_END;
    assert url[|URL_START|..|url| - |URL_END|] == d;
    ParseDecimal(number);
  }

  /** What get_urls(season) returns: None when int(season + "00001") raises. */
  function Urls(season: string): Option<seq<string>>
  {
    match ParseInt(season + "00001")
    case None => None
    case Some(base) => Some(seq(TOTAL_GAMES, i requires 0 <= i < TOTAL_GAMES => GameUrl(base + i)))
  }

  /** get_urls: the URL list built one game at a time. */
  method GetUrls(season: string) returns (urls: Option<seq<string>>)
    ensures urls == Urls(season)
  {
    var base := ParseInt(season + "00001");
    if base.None? {
      return None;
    }
    var list: seq<string> := [];
    for game := 0 to TOTAL_GAMES
      invariant |list| == game
      invariant forall i :: 0 <= i < game ==> list[i] == GameUrl(base.value + i)
    {
      list := list + [URL_START + Decimal(base.value + game) + URL_END];
    }
    ghost var spec := Urls(season).value;
    assert |spec| == |list| && forall i :: 0 <= i < |list| ==> spec[i] == list[i];
    assert spec == list;
    return Some(list);
  }

  /** The number of the first game of a season of decimal digits. */
  function SeasonBase(season: string): nat
    requires AllDigits(season)
  {
    Value(season) * 100000 + 1
  }

  /** get_urls succeeds exactly for a season of decimal digits, and then
      gives TOTAL_GAMES URLs, the i-th holding the number SeasonBase + i. */
  lemma UrlsShape(season: string)
    ensures Urls(season).Some? <==> AllDigits(season)
    ensures Urls(season).Some? ==>
      |Urls(season).value| == TOTAL_GAMES &&
      forall i :: 0 <= i < TOTAL_GAMES ==> Urls(season).value[i] == GameUrl(SeasonBase(season) + i)
  {
    var s := season + "00001";
    if AllDigits(season) {
      assert AllDigits("00001");
      ValueAppend(season, "00001");
      assert Value("00001") == 1 by {
        assert "00001"[..4] == "0000" && "0000"[..3] == "000" && "000"[..2] == "00" && "00"[..1] == "0";
      }
      assert Pow10(5) == 100000;
    } else {
      var k :| 0 <= k < |season| && !IsDigit(season[k]);
      assert s[k] == season[k];
    }
  }

  /** For the 2024-25 season "24" the URL numbers start at 2400001; put
      after the "2" ending URL_START, that is GAME_NUM_BASE, the game id the
      constant's comment counts from, which get_urls itself never reads. */
  lemma SeasonBase24(season: string)
    requires season == "24"
    ensures AllDigits(season) && SeasonBase(season) == 2400001
    ensures 2 * Pow10(|Decimal(SeasonBase(season))|) + SeasonBase(season) == GAME_NUM_BASE
  {
    TwoDigitValue('2', '4');
    assert season == ['2', '4'];
    SevenDigits(SeasonBase(season));
    assert Pow10(7) == 10000000;
  }

  /** Numbers from 10^6 up to 10^7 are written with seven digits. */
  lemma SevenDigits(n: nat)
    requires 1000000 <= n < 10000000
    ensures |Decimal(n)| == 7
  {
    assert Pow10(7) == 10000000 && Pow10(6) == 1000000;
    DecimalLength(n, 7);
    ValueBound(Decimal(n));
    Pow10Monotone(|Decimal(n)|, 6);
  }

  /** The URL numbers are consecutive and strictly increasing, so no URL
      repeats, and each number is written without leading zeros. */
  lemma UrlsNumbers(season: string, i: nat, j: nat)
    requires AllDigits(season) && i < j < TOTAL_GAMES
    ensures UrlNumber(Urls(season).value[i]) == Some(SeasonBase(season) + i)
    ensures UrlNumber(Urls(season).value[j]) == Some(SeasonBase(season) + j)
    ensures UrlNumber(Urls(season).value[j]).value > UrlNumber(Urls(season).value[i]).value
    ensures Urls(season).value[i] != Urls(season).value[j]
    ensures Decimal(SeasonBase(season) + i)[0] != '0'
  {
    UrlsShape(season);
    UrlRoundTrip(SeasonBase(season) + i);
    UrlRoundTrip(SeasonBase(season) + j);
  }

  /** Season "05" gives the URL of game 500001 first: the season's leading zero survives only as part of the fixed "002". */
  lemma Season05(season: string)
    requires season == "05"
    ensures Urls(season).Some? && Urls(season).value[0] == URL_START + "500001" + URL_END
  {
    SeasonBase05(season);
    FirstUrl(season);
    Decimal500001(SeasonBase(season));
  }

  lemma SeasonBase05(season: string)
    requires season == "05"
    ensures AllDigits(season) && SeasonBase(season) == 500001
  {
    TwoDigitValue('0', '5');
    assert season == ['0', '5'];
  }

  lemma Decimal500001(n: nat)
    requires n == 500001
    ensures Decimal(n) == "500001"
  {
    var z := "5" + Zeros(4) + "1";
    SeasonDigits(z);
    DecimalValue(z);
    assert z == "500001";
  }

  /** The first URL of a digit season carries the season's base number. */
  lemma FirstUrl(season: string)
    requires AllDigits(season)
    ensures Urls(season).Some? && |Urls(season).value| == TOTAL_GAMES
    ensures Urls(season).value[0] == GameUrl(SeasonBase(season))
  {
    UrlsShape(season);
    assert Urls(season).value[0] == GameUrl(SeasonBase(season) + 0);
  }

  lemma SeasonDigits(z: string)
    requires z == "5" + Zeros(4) + "1"
    ensures AllDigits(z) && Value(z) == 500001
  {
    ValueAppend("5", Zeros(4));
    ValueZeros(4);
    ValueAppend("5" + Zeros(4), "1");
    assert Pow10(4) == 10000 && Value("5") == 5 && Value("1") == 1;
  }

  /** URL_LIST[game_num - 1], with Python's negative indices counting from the end. */
  function UrlAt(urls: seq<string>, n: int): Option<string>
  {
    var i := n - 1;
    if 0 <= i < |urls| then Some(urls[i])
    else if -|urls| <= i < 0 then Some(urls[|urls| + i])
    else None
  }

  /** Game n of 1..TOTAL_GAMES fetches the URL numbered SeasonBase + n - 1;
      game 0 wraps round to the last URL; numbers past the list find none. */
  lemma GameNumberUrl(season: string, n: int)
    requires AllDigits(season)
    ensures 1 <= n <= TOTAL_GAMES ==> UrlAt(Urls(season).value, n) == Some(GameUrl(SeasonBase(season) + n - 1))
    ensures n == 0 ==> UrlAt(Urls(season).value, n) == Some(GameUrl(SeasonBase(season) + TOTAL_GAMES - 1))
    ensures UrlAt(Urls(season).value, n).None? <==> n > TOTAL_GAMES || n < 1 - TOTAL_GAMES
  {
    UrlsShape(season);
  }

  /** "{0:0=4d}".format(n): at least four characters, zeros after the sign. */
  function Pad4(n: int): string
  {
    if n >= 0 then ZeroPad(Decimal(n), 4) else "-" + ZeroPad(Decimal(-n), 3)
  }

  /** Game numbers 0..9999 become exactly four digits that read back as the number. */
  lemma Pad4Small(n: int)
    requires 0 <= n <= 9999
    ensures |Pad4(n)| == 4 && AllDigits(Pad4(n)) && ParseInt(Pad4(n)) == Some(n)
  {
    assert Pow10(4) == 10000;
    DecimalLength(n, 4);
    PadValue(Decimal(n), 4);
  }

  /** From 1000 on the number is written as it is, with all its digits. */
  lemma Pad4Large(n: int)
    requires n >= 1000
    ensures Pad4(n) == Decimal(n)
  {
    var d := Decimal(n);
    ValueBound(d);
    Pow10Monotone(|d|, 3);
    assert Pow10(3) == 1000;
  }

  /** A negative number keeps its sign in front of three or more digits. */
  lemma Pad4Negative(n: int)
    requires n < 0
    ensures |Pad4(n)| >= 4 && Pad4(n)[0] == '-' && ParseInt(Pad4(n)[1..]) == Some(-n)
  {
    PadValue(Decimal(-n), 3);
    assert Pad4(n)[1..] == ZeroPad(Decimal(-n), 3);
  }

  /** The padded number never holds a dot, so it survives file.split('.')[0]. */
  lemma Pad4NoDot(n: int)
    ensures '.' !in Pad4(n)
  {
    if n >= 0 {
      PadValue(Decimal(n), 4);
      assert forall i :: 0 <= i < |Pad4(n)| ==> Pad4(n)[i] != '.';
    } else {
      var z := ZeroPad(Decimal(-n), 3);
      PadValue(Decimal(-n), 3);
      assert Pad4(n) == "-" + z;
      assert forall i :: 0 <= i < |z| ==> z[i] != '.';
    }
  }

  /** The name save_json gives game n's file inside EXPORT_PATH. */
  function SaveName(n: int): string
  {
    "S2425-G" + Pad4(n) + ".json"
  }

  function SavePath(n: int): string
  {
    EXPORT_PATH + SaveName(n)
  }

  /** A JSON value as json.loads gives it (numbers as integers). */
  datatype Json = Null | Bool(b: bool) | Num(n: int) | Str(s: string) | Arr(items: seq<Json>) | Obj(members: map<string, Json>)

  const ACTIONS_PATH: seq<string> := ["props", "pageProps", "playByPlay", "actions"]

  /** j[key]: only an object with that key has a value there; any other
      value raises (KeyError or TypeError). */
  function Member(j: Json, key: string): Option<Json>
  {
    if j.Obj? && key in j.members then Some(j.members[key]) else None
  }

  /** j[k0][k1]...: None as soon as one step raises. */
  function Lookup(j: Json, path: seq<string>): Option<Json>
  {
    if path == [] then Some(j)
    else
      match Member(j, path[0])
      case None => None
      case Some(inner) => Lookup(inner, path[1..])
  }

  /** An object nested along path with v at its end. */
  function Nest(path: seq<string>, v: Json): Json
  {
    if path == [] then v else Obj(map[path[0] := Nest(path[1..], v)])
  }

  /** Looking up a path in the value nested along it finds what was put there. */
  lemma {:induction false} LookupNest(path: seq<string>, v: Json)
    ensures Lookup(Nest(path, v), path) == Some(v)
  {
    if path != [] {
      LookupNest(path[1..], v);
    }
  }

  /** A lookup along p + q is one along p followed by one along q. */
  lemma {:induction false} LookupAppend(j: Json, p: seq<string>, q: seq<string>)
    ensures Lookup(j, p + q) == match Lookup(j, p) case None => None case Some(inner) => Lookup(inner, q)
  {
    if p == [] {
      assert p + q == q;
    } else {
      assert (p + q)[0] == p[0] && (p + q)[1..] == p[1..] + q;
      match Member(j, p[0])
      case None =>
      case Some(inner) => LookupAppend(inner, p[1..], q);
    }
  }

  /** get_json: the page's __NEXT_DATA__ JSON (None when the page, the script
      tag or the JSON text is missing) and the actions list inside it. */
  function GetJson(page: Option<Json>): Option<Json>
  {
    match page
    case None => None
    case Some(j) => Lookup(j, ACTIONS_PATH)
  }

  /** get_json finds a value exactly when each key on the path names a
      member of an object, and the value is the last of them. */
  lemma GetJsonPath(j: Json)
    ensures GetJson(Some(j)).Some? <==>
      j.Obj? && "props" in j.members &&
      j.members["props"].Obj? && "pageProps" in j.members["props"].members &&
      j.members["props"].members["pageProps"].Obj? &&
      "playByPlay" in j.members["props"].members["pageProps"].members &&
      j.members["props"].members["pageProps"].members["playByPlay"].Obj? &&
      "actions" in j.members["props"].members["pageProps"].members["playByPlay"].members
    ensures GetJson(Some(j)).Some? ==>
      GetJson(Some(j)).value == j.members["props"].members["pageProps"].members["playByPlay"].members["actions"]
    ensures GetJson(Some(Nest(ACTIONS_PATH, j))) == Some(j)
  {
    var p0 := ACTIONS_PATH;
    var p1 := ["pageProps", "playByPlay", "actions"];
    var p2 := ["playByPlay", "actions"];
    var p3 := ["actions"];
    assert p0[0] == "props" && p0[1..] == p1;
    assert p1[0] == "pageProps" && p1[1..] == p2;
    assert p2[0] == "playByPlay" && p2[1..] == p3;
    assert p3[0] == "actions" && p3[1..] == [];
    if j.Obj? && "props" in j.members {
      var a := j.members["props"];
      assert Lookup(j, p0) == Lookup(a, p1);
      if a.Obj? && "pageProps" in a.members {
        var b := a.members["pageProps"];
        assert Lookup(a, p1) == Lookup(b, p2);
        if b.Obj? && "playByPlay" in b.members {
          var c := b.members["playByPlay"];
          assert Lookup(b, p2) == Lookup(c, p3);
        }
      }
    }
    LookupNest(ACTIONS_PATH, j);
  }

  /** What export_game(n) leaves behind: the file save_json writes, holding
      the actions or, when get_json gave None, null; or nothing, when the
      URL lookup raised first. */
  datatype Export = Saved(game: int, path: string, payload: Json) | Failed(game: int)

  /** json.dump writes None as null. */
  function Payload(o: Option<Json>): Json
  {
    match o
    case None => Null
    case Some(j) => j
  }

  /** export_game(n) with URL_LIST = urls (None when get_urls returned None)
      and page fetching and parsing a URL. */
  function ExportGame(urls: Option<seq<string>>, n: int, page: string -> Option<Json>): Export
  {
    match urls
    case None => Failed(n)
    case Some(list) =>
      match UrlAt(list, n)
      case None => Failed(n)
      case Some(url) => Saved(n, SavePath(n), Payload(GetJson(page(url))))
  }

  /** A game fails only at the URL lookup; otherwise its file is named by
      the game number alone, whatever the season, and holds what get_json
      found at the game's URL. */
  lemma ExportOutcome(season: string, n: int, page: string -> Option<Json>)
    ensures ExportGame(Urls(season), n, page).game == n
    ensures ExportGame(Urls(season), n, page).Failed? <==>
      !AllDigits(season) || n > TOTAL_GAMES || n < 1 - TOTAL_GAMES
    ensures AllDigits(season) && 1 <= n <= TOTAL_GAMES ==>
      ExportGame(Urls(season), n, page) ==
        Saved(n, SavePath(n), Payload(GetJson(page(GameUrl(SeasonBase(season) + n - 1)))))
  {
    UrlsShape(season);
    if AllDigits(season) {
      GameNumberUrl(season, n);
    }
  }

  /** The games export_games(start, end) leaves behind, one per game number
      from start to end, both included, in increasing order. */
  function ExportRange(start: int, end: int, urls: Option<seq<string>>, page: string -> Option<Json>): seq<Export>
  {
    var count := if end >= start then end - start + 1 else 0;
    seq(count, i requires 0 <= i < count => ExportGame(urls, start + i, page))
  }

  /** The range visits every number from start to end once, in increasing
      order, and a failed game does not stop the ones after it. */
  lemma ExportRangeGames(start: int, end: int, urls: Option<seq<string>>, page: string -> Option<Json>)
    ensures |ExportRange(start, end, urls, page)| == if end >= start then end - start + 1 else 0
    ensures forall i :: 0 <= i < |ExportRange(start, end, urls, page)| ==>
      ExportRange(start, end, urls, page)[i] == ExportGame(urls, start + i, page) &&
      ExportRange(start, end, urls, page)[i].game == start + i
  {
  }

  /** A game number appears in the exports of a range iff it lies between
      start and end, and the numbers strictly increase, so no game is
      exported twice. */
  lemma ExportRangeCovers(start: int, end: int, urls: Option<seq<string>>, page: string -> Option<Json>, n: int)
    ensures (exists i :: 0 <= i < |ExportRange(start, end, urls, page)| && ExportRange(start, end, urls, page)[i].game == n)
      <==> start <= n <= end
    ensures forall i, j :: 0 <= i < j < |ExportRange(start, end, urls, page)| ==>
      ExportRange(start, end, urls, page)[i].game < ExportRange(start, end, urls, page)[j].game
  {
    var r := ExportRange(start, end, urls, page);
    ExportRangeGames(start, end, urls, page);
    if start <= n <= end {
      assert r[n - start].game == n;
    }
  }

  /** export_all_games on the URLs of a season given as digits saves every
      game from 1 to 1230, game k under its own padded file name. */
  lemma AllGamesSaved(season: string, page: string -> Option<Json>)
    requires AllDigits(season)
    ensures |ExportRange(1, TOTAL_GAMES, Urls(season), page)| == TOTAL_GAMES
    ensures forall i :: 0 <= i < TOTAL_GAMES ==>
      ExportRange(1, TOTAL_GAMES, Urls(season), page)[i].Saved? &&
      ExportRange(1, TOTAL_GAMES, Urls(season), page)[i].path == SavePath(i + 1)
  {
    var r := ExportRange(1, TOTAL_GAMES, Urls(season), page);
    forall i | 0 <= i < TOTAL_GAMES
      ensures r[i].Saved? && r[i].path == SavePath(i + 1)
    {
      ExportOutcome(season, i + 1, page);
    }
  }

  /** export_games: the loop over range(start, end + 1); export_game
      catches every error, so each game is attempted. */
  method ExportGames(start: int, end: int, urls: Option<seq<string>>, page: string -> Option<Json>)
    returns (exports: seq<Export>)
    ensures exports == ExportRange(start, end, urls, page)
  {
    ghost var spec := ExportRange(start, end, urls, page);
    var count := if end >= start then end - start + 1 else 0;
    assert |spec| == count;
    exports := [];
    for i := 0 to count
      invariant exports == spec[..i]
    {
      assert spec[..i + 1] == spec[..i] + [spec[i]];
      var e := ExportGame(urls, start + i, page);
      exports := exports + [e];
    }
    assert spec[..count] == spec;
  }

  /** export_all_games: games 1 to TOTAL_GAMES. */
  method ExportAllGames(urls: Option<seq<string>>, page: string -> Option<Json>) returns (exports: seq<Export>)
    ensures exports == ExportRange(1, TOTAL_GAMES, urls, page)
  {
    exports := ExportGames(1, TOTAL_GAMES, urls, page);
  }
}
