# NBA play-by-play crawler and processor, modelled in Dafny

The repository scrapes NBA play-by-play data and turns it into CSV tables.

- **Crawler** (`crawler.py`):
  - builds the 1230 game-chart URLs of a season from the season's two digits;
  - fetches each page and digs the play-by-play actions out of the page's embedded JSON;
  - saves them as `S2425-G<nnnn>.json`.
- **Processor** (`processor.py`):
  - reads every saved game file of a season;
  - tags each row with its game id;
  - cleans each game table with `clean_df`:
    - home and away team columns;
    - a shot's value and the points it scored;
    - the game clock reformatted from an ISO-8601 duration;
    - the 19 export columns;
  - concatenates the cleaned tables;
  - writes the combined table;
  - splits that table into one CSV file per team, per player and per (team, player) pair.

## How the model is built

Each module is one file.

- **`Wrappers`:** `Option` and `Result`.
- **`Text`:** the string operations the source relies on:
  - decimal digits and `int()`;
  - `str.strip` with a character set, and `str.replace`;
  - `split('.')[0]`;
  - `str.contains`;
  - zero padding;
  - the code-point string order that `sort_values` uses.
- **`Collections`:** specifications for the pandas operations the exporters use:
  - `unique()`, which keeps first appearances in order;
  - `sort_values().dropna()`, which sorts and drops missing values;
  - boolean filtering;
  - `pd.concat`;
  - a loop that stops at its first exception.
- **`Rows`:** one row of a game table, with the columns the processor reads or writes as typed fields. The rest of the columns are kept as they are.
  - `Record` is a row after `df[export_columns]`.
  - `Field` and `Project` say which column lands where.
- **`Clock`:** `convert_clock` on one value:
  - strip `P`/`T`;
  - `M` → `:`;
  - drop `S`;
  - parse with `%M:%S.%f`;
  - `str(time)[3:]`.
  - `str(datetime.time)` prints microseconds when they are non-zero, so `PT0M9.50S` becomes `00:09.500000` (`Clock.ConvertHalfSecond`).
- **`Cleaner`:** `clean_df` and its four steps on a DataFrame held as an `array<Row>`.
  - Each `df.loc[mask, col] = v` is one call of `AssignWhere`, in the source's order.
  - Every method is proved against a function on the rows (`WithShot`, `WithScore`, `ConvertedRow`, `CleanSpec`).
- **`Loader`:** `load_game` as a loop over the files, proved equal to `LoadSpec`.
- **`Exporters`:** the three `save_by_*` functions.
  - Each `to_csv` call becomes a `Write(path, rows)`.
  - The methods return the writes in the order the loops make them.
  - Each method is proved equal to a specification function.
- **`Crawler`:** `get_urls`, `get_json`, the save path of `save_json`, `export_game`, `export_games` and `export_all_games`.
  - The web page behind a URL is a parameter `page: string -> Option<Json>`.
- **`Pipeline`:** the processor's `__main__`, plus facts that tie crawler and processor together.

## Model

| member | source | states |
|---|---|---|
| Loader.LoadGame | src/notebook/24-25/processor.py:15-45 | the loop over the files returns what `LoadSpec` says: the first file `clean_df` rejects ends the load, otherwise the cleaned tables concatenated in file order |
| Loader.LoadFile | src/notebook/24-25/processor.py:31-37 | one pass of the loop: the rows tagged with the file's game id, then `clean_df`, its error labelled with the file |
| Loader.LoadOutcome | src/notebook/24-25/processor.py:27-43 | `load_game` succeeds iff there is at least one file and every file cleans; `pd.concat` of nothing fails iff the list is empty; any other failure is that of the first failing file, all earlier files having cleaned |
| Loader.LoadedRow | src/notebook/24-25/processor.py:34-43 | the combined table has as many rows as all files together; row j of file k sits right after the earlier files' rows, equals that file's cleaned row j and carries file k's game id |
| Loader.CleanFileRows | src/notebook/24-25/processor.py:34 | a cleaned file keeps its row count, and every record carries the file name up to its first dot as `game_id` |
| Loader.CleanFileLength | src/notebook/24-25/processor.py:37 | a cleaned file has exactly as many records as the file has rows |
| Loader.BlockRow | src/notebook/24-25/processor.py:43 | in the concatenation of per-file blocks, row j of block k lies at the offset given by the earlier files' row counts |
| Loader.BlockLengths | src/notebook/24-25/processor.py:37-40 | each table appended to `games` is as long as its file |
| Loader.SameCounts | src/notebook/24-25/processor.py:43 | blocks as long as their files add up to the files' total row count |
| Cleaner.CleanDf | src/notebook/24-25/processor.py:48-67 | the in-place pipeline `create_teams`, `create_shotval`, `create_scoreval`, `convert_clock` and the projection returns exactly `CleanSpec` of the table it was given, and leaves its argument as `InPlace` says: untouched when `create_teams` raises, otherwise every row staged and then converted, or holding only the clock's string rewrites when a clock does not parse |
| Cleaner.InPlaceProjects | src/notebook/24-25/processor.py:48-67 | the table left in place keeps the argument's length, and on success the returned records are exactly its export columns |
| Cleaner.InPlaceRejected | src/notebook/24-25/processor.py:122-125 | after a clock failure the table left in place keeps the argument's length and every clock holds the rewritten text `pd.to_datetime` rejected |
| Cleaner.ParsedProjects | src/notebook/24-25/processor.py:54-67 | with both teams known and every clock converting, the cleaned records equal the export columns of the staged-then-converted table |
| Cleaner.InPlaceStaged | src/notebook/24-25/processor.py:57-65 | `convert_clock` applied to the staged table leaves exactly that in-place table |
| Cleaner.ConvertProjects | src/notebook/24-25/processor.py:65-67 | when every clock converts, the returned records are the export columns of the converted table |
| Cleaner.RejectedClocks | src/notebook/24-25/processor.py:122-125 | when a clock fails to parse, every staged row keeps the clock text the three string rewrites made |
| Cleaner.CleanOutcome | src/notebook/24-25/processor.py:48-67 | `clean_df` fails with "no home row" iff no row has location `h`; with "no visitor row" iff there is an `h` row but no `v` row; with a clock error iff both exist and some clock does not parse; it succeeds iff none of these holds |
| Cleaner.CleanLength | src/notebook/24-25/processor.py:67 | a cleaned table has as many records as the input has rows (`reset_index` keeps every row) |
| Cleaner.CleanedRecord | src/notebook/24-25/processor.py:48-128 | each cleaned record: `home`/`away` are the team codes of the first `h`/`v` rows; `shotVal` and `scoreVal` are the resolved values of the masked writes; `clock` is the converted clock; every other exported column is the row's own |
| Cleaner.BuildColumns | src/notebook/24-25/processor.py:57-62 | the first three steps report the missing `h` or `v` location as Python raises it, with the table untouched (create_teams raises before assigning), else leave every row staged (teams, shot value, score value) |
| Cleaner.ConvertAndProject | src/notebook/24-25/processor.py:65-67 | `convert_clock` and `df[export_columns]` return the projected converted rows, or the clock error if any clock fails to parse; the table is left as `AfterConvert` says, converted or with only the string rewrites done |
| Cleaner.FinalStage | src/notebook/24-25/processor.py:57-67 | converting and projecting a staged table gives the same outcome as `clean_df` on the original rows |
| Cleaner.StagedOutcome | src/notebook/24-25/processor.py:65-67 | on a staged table, conversion succeeds iff every original clock parses, and then yields the cleaned rows |
| Cleaner.StagesCompose | src/notebook/24-25/processor.py:57-65 | staging leaves the clock column alone, so the clocks parse after staging iff they parsed before, and converting a staged row gives the fully cleaned row |
| Cleaner.ConvertedRecords | src/notebook/24-25/processor.py:65-67 | records projected from converted staged rows are exactly the cleaned rows |
| Cleaner.TeamsCommute | src/notebook/24-25/processor.py:57-62 | setting `home`/`away` first and then the shot and score columns gives the same row as the other order |
| Cleaner.AssignWhere | src/notebook/24-25/processor.py:91 | `df.loc[mask, col] = v`: rows meeting the mask (judged on their old value) are updated, all others unchanged |
| Cleaner.CreateTeams | src/notebook/24-25/processor.py:70-84 | raises (nothing changed) when no row is `h`, or when there is an `h` row but no `v` row; else every row gets the first `h` row's and the first `v` row's team codes and nothing else changes |
| Cleaner.CreateShotVal | src/notebook/24-25/processor.py:88-100 | the four masked writes in order leave each row as `WithShot` of it |
| Cleaner.CreateScoreVal | src/notebook/24-25/processor.py:103-116 | the five masked writes in order leave each row as `WithScore` of it |
| Cleaner.ScoreSteps | src/notebook/24-25/processor.py:106-114 | the five successive conditional writes of `scoreVal`, where each mask sees the previous writes' result, compose to `WithScore` |
| Cleaner.ConvertClock | src/notebook/24-25/processor.py:119-130 | succeeds iff every clock parses, and then each row's clock is converted; otherwise it reports the clock error and the string clean-up has already been applied in place |
| Cleaner.SetClock | src/notebook/24-25/processor.py:122-124 | one `df['clock'] = f(df['clock'])`: every row's clock is mapped, nothing else changes |
| Cleaner.FirstIndex | src/notebook/24-25/processor.py:73 | None iff no row has the location; otherwise the index of the first such row |
| Cleaner.FirstTeam | src/notebook/24-25/processor.py:73-78 | `unique()[0]` of the filtered team codes: None (an IndexError) iff no row has the location, otherwise the team code of the first such row |
| Cleaner.FirstAtUnique | src/notebook/24-25/processor.py:74 | the first row at a location is unique, so `unique()[0]` is well defined |
| Cleaner.FreeThrowValues | src/notebook/24-25/processor.py:98-114 | a free throw is worth 1 and scores 0 iff its description contains `MISS`, else 1 |
| Cleaner.FieldGoalValues | src/notebook/24-25/processor.py:91-110 | outside free throws, a field goal is worth 3 iff its description contains `3PT`, else 2; a non-field-goal gets `''` as shot value and `''` as score unless it is a missed shot (0) |
| Cleaner.MadeFieldGoal | src/notebook/24-25/processor.py:94-109 | a made field goal scores its shot value, which is 2 or 3 |
| Cleaner.UntouchedScore | src/notebook/24-25/processor.py:106-114 | a field-goal row that is neither made, missed nor a free throw keeps the `scoreVal` it came with |
| Cleaner.ScoreAtMostShot | src/notebook/24-25/processor.py:88-116 | on rows without shot or score columns, a numeric shot value is 1, 2 or 3, and the points scored lie between 0 and it |
| Clock.ConvertDuration | src/notebook/24-25/processor.py:119-128 | for every `PT<m>M<s>.<f>S` with 1–2 digit minutes and seconds below 60 and 1–6 fraction digits, the cleaned clock is `MM:SS`, followed by `.ffffff` exactly when the fraction is non-zero; its length is 5 or 12 |
| Clock.NormalizeDuration | src/notebook/24-25/processor.py:122-124 | `strip('PT')`, `replace('M', ':')`, `replace('S', '')` turn `PT<m>M<s>.<f>S` into `<m>:<s>.<f>` |
| Clock.ParseDuration | src/notebook/24-25/processor.py:125 | `%M:%S.%f` reads `<m>:<s>.<f>` as minute m, second s, and f padded with zeros on the right to microseconds |
| Clock.ParseParts | src/notebook/24-25/processor.py:125 | a string split at its first `:` and then its first `.` into well-formed parts parses to their values |
| Clock.Parse | src/notebook/24-25/processor.py:125 | a parsed time has minute and second below 60 and fewer than a million microseconds |
| Clock.TimeText | src/notebook/24-25/processor.py:128 | the text of a `datetime.time` with hour 0 starts with `00:` |
| Clock.TimeTextTail | src/notebook/24-25/processor.py:128 | `str(time)[3:]` is the `MM:SS[.ffffff]` text, 5 characters long without microseconds and 12 with them |
| Clock.ConvertWholeSecond | src/notebook/24-25/processor.py:119-128 | `PT11M23.00S` becomes `11:23` |
| Clock.ConvertHalfSecond | src/notebook/24-25/processor.py:119-128 | `PT0M9.50S` becomes `00:09.500000` |
| Clock.SplitFirst | src/notebook/24-25/processor.py:125 | None iff the separator is absent; otherwise the separator-free text before its first occurrence and the rest, which rejoin to the input |
| Clock.SplitFirstAt | src/notebook/24-25/processor.py:125 | splitting `a + c + b` where `a` has no `c` gives back `a` and `b` |
| Clock.StripDuration | src/notebook/24-25/processor.py:122 | the character-set strip of `P`/`T` removes exactly the `PT` prefix of a duration whose minutes are digits |
| Clock.ReplaceMarkerM | src/notebook/24-25/processor.py:123 | the one `M` of the duration becomes `:` |
| Clock.ReplaceMarkerS | src/notebook/24-25/processor.py:124 | the trailing `S` is removed |
| Rows.ProjectSelects | src/notebook/24-25/processor.py:51-67 | after `df[export_columns]` a column is present iff it is one of the 19 export columns, and then holds the row's value for it |
| Rows.CellsDetermine | src/notebook/24-25/processor.py:51-54 | two records with the same typed export cells are equal: each of the 19 export columns holds its own field of a cleaned record, so the typed projection drops no field (a claim about typed cells, not about the CSV text) |
| Rows.ExportColumnsDistinct | src/notebook/24-25/processor.py:51-54 | there are 19 export columns and no name repeats |
| Exporters.SaveByTeam | src/notebook/24-25/processor.py:201-223 | one write per team, in sorted order: the path `<season>/team/<team>_games.csv` and the rows where the team plays home or away |
| Exporters.TeamsAreHomes | src/notebook/24-25/processor.py:213 | the team list is strictly sorted, has no duplicates, holds t iff some row read back has home team t, and never holds a string read as NaN |
| Exporters.TeamRowsMembers | src/notebook/24-25/processor.py:217 | a team's file holds exactly the rows where it is home or away |
| Exporters.TeamRowsOrder | src/notebook/24-25/processor.py:217 | the filter distributes over concatenation, so rows keep their table order |
| Exporters.TeamPartition | src/notebook/24-25/processor.py:213-218 | every row lands in at most two team files, and a row with a home team is in that team's file |
| Exporters.MembershipsBound | src/notebook/24-25/processor.py:217 | a row belongs to no more team files than its home and away codes occur in the team list, and to at least one when its home team is listed |
| Exporters.SaveByPlayer | src/notebook/24-25/processor.py:173-198 | one write per player in sorted order: the path with the name's spaces removed, and exactly that player's rows |
| Exporters.PlayersListed | src/notebook/24-25/processor.py:185 | the player list is strictly sorted, has no duplicates, and holds p iff some row has player name p |
| Exporters.PlayerRowsMembers | src/notebook/24-25/processor.py:190 | a player's file holds exactly the rows with that name; the rows with any name are those with a name present |
| Exporters.PlayerPartition | src/notebook/24-25/processor.py:185-192 | the player files together contain, as a multiset, exactly the rows whose player name is present: nothing lost, nothing duplicated |
| Exporters.NamesCovered | src/notebook/24-25/processor.py:185 | every row with a player name has that name in the player list |
| Exporters.FileNameSpaces | src/notebook/24-25/processor.py:189 | the file name has no spaces, equals the name when it has none, and ignores where spaces were, so `A B` and `AB` share a file |
| Exporters.PlayerPathsDiffer | src/notebook/24-25/processor.py:189-192 | distinct space-free player names get distinct paths |
| Exporters.SaveByTeamPlayer | src/notebook/24-25/processor.py:133-170 | for each player in sorted order, one write per string team code of that player's rows, in first-appearance order, holding that player's rows for that team |
| Exporters.SavePlayerTeams | src/notebook/24-25/processor.py:154-163 | the inner loop skips non-string team codes and writes one file per remaining code |
| Exporters.PairFilesStep | src/notebook/24-25/processor.py:158-163 | a missing team code adds no file; a present one adds that pair's file |
| Exporters.PlayerTeamsOrder | src/notebook/24-25/processor.py:154-159 | a player's teams are the distinct present codes of the player's rows, ordered by first appearance |
| Exporters.PairPartition | src/notebook/24-25/processor.py:154-163 | one player's pair files together contain, as a multiset, exactly that player's rows with a team code |
| Exporters.CodesCovered | src/notebook/24-25/processor.py:154-159 | every present team code of a player's rows is among the teams the loop visits |
| Exporters.PairRowsMembers | src/notebook/24-25/processor.py:151-161 | a pair's file holds exactly the rows with that player and that team |
| Exporters.PairFilesAt | src/notebook/24-25/processor.py:158-163 | the k-th file of a player's block is the k-th team's path and rows |
| Exporters.ReadBackSelects | src/notebook/24-25/processor.py:212-217 | reading the table back keeps every column but the four key columns and the two points columns; for a key that is not a NaN string a row is selected by team, player or team code after the round trip iff it was before; a NaN-string key selects nothing |
| Exporters.TeamsOfTable | src/notebook/24-25/processor.py:212-213 | the teams save_by_team visits are exactly the home codes of the written table that are not NaN strings |
| Exporters.PlayersOfTable | src/notebook/24-25/processor.py:184-185 | the players save_by_player visits are exactly the player names of the written table that are not NaN strings |
| Exporters.ReadBackStable | src/notebook/24-25/processor.py:184 | reading back keeps every row in place, and a second round trip changes nothing |
| Pipeline.ProcessSeason | src/notebook/24-25/processor.py:226-244 | the script fails exactly as `load_game` does; otherwise it yields the table and the three exporters' files, always under the `S2425` folder |
| Pipeline.SavedGameId | src/notebook/24-25/processor.py:34 | the game id `load_game` derives from the file `save_json` writes for game n is `S2425-G` plus n padded to four digits |
| Pipeline.LoadedGameId | src/notebook/24-25/processor.py:34-43 | every loaded row of a crawled game file carries that game's id |
| Pipeline.LoadedPoints | src/notebook/24-25/processor.py:88-116 | in the loaded table a shot is worth 1, 2 or 3, and points scored never exceed it |
| Crawler.GetUrls | src/notebook/24-25/crawler.py:33-57 | the loop builds `Urls(season)`: None when `int(season + "00001")` fails, else the 1230 URLs |
| Crawler.UrlsShape | src/notebook/24-25/crawler.py:46-54 | URLs exist iff the season is all digits, and then URL i has game number base + i |
| Crawler.UrlsNumbers | src/notebook/24-25/crawler.py:51-53 | the game numbers in the URLs strictly increase, so no two URLs coincide |
| Crawler.UrlRoundTrip | src/notebook/24-25/crawler.py:52 | the game number can be read back from a URL |
| Crawler.ParseDecimal | src/notebook/24-25/crawler.py:46 | `int()` of a number's decimal text gives the number |
| Crawler.SeasonBase24 | src/notebook/24-25/crawler.py:13-46 | season `24` starts at 2400001; with the leading `2` that `URL_START` ends in, this is `GAME_NUM_BASE` |
| Crawler.Season05 | src/notebook/24-25/crawler.py:46-52 | season `05` drops its leading zero in `int()`: its first URL has game number `500001` |
| Crawler.FirstUrl | src/notebook/24-25/crawler.py:51-53 | the first URL carries the season's base number |
| Crawler.GameNumberUrl | src/notebook/24-25/crawler.py:128 | `URL_LIST[n - 1]` is game n's URL for 1 ≤ n ≤ 1230, wraps to the last URL for n = 0, and fails iff n is out of Python's index range |
| Crawler.Pad4Small | src/notebook/24-25/crawler.py:111 | `{0:0=4d}` of 0..9999 is four digits that read back as the number |
| Crawler.Pad4Large | src/notebook/24-25/crawler.py:111 | numbers of four or more digits are written unpadded |
| Crawler.Pad4Negative | src/notebook/24-25/crawler.py:111 | a negative number puts the sign first and pads after it |
| Crawler.Pad4NoDot | src/notebook/24-25/crawler.py:111 | the padded number has no `.`, so the file's game id is everything before `.json` |
| Crawler.GetJsonPath | src/notebook/24-25/crawler.py:92-98 | the actions are found iff each of `props`, `pageProps`, `playByPlay`, `actions` is an object member on the path, and then they are that member; nesting a value along the path finds it again |
| Crawler.LookupNest | src/notebook/24-25/crawler.py:95 | looking up a path in a value nested along that path gives the value back |
| Crawler.LookupAppend | src/notebook/24-25/crawler.py:95 | chained subscripts compose: looking up `p + q` is looking up `q` in the result of `p` |
| Crawler.ExportOutcome | src/notebook/24-25/crawler.py:119-135 | `export_game(n)` fails iff the URL list is missing or n is out of index range; a game in 1..1230 saves the looked-up actions of its URL's page, or `null`, under its padded path |
| Crawler.ExportRangeCovers | src/notebook/24-25/crawler.py:161-163 | a game number is exported by a range iff it lies between start and end, and the exported numbers strictly increase, so no game is exported twice |
| Crawler.AllGamesSaved | src/notebook/24-25/crawler.py:138-149 | on the URLs of an all-digit season every game from 1 to 1230 is saved, game k under its own padded file name |
| Crawler.ExportGames | src/notebook/24-25/crawler.py:152-167 | the loop exports games `start..end` in order, one export each |
| Crawler.ExportAllGames | src/notebook/24-25/crawler.py:138-149 | exports games 1 to 1230 in order |
| Text.StripLeftSpec | src/notebook/24-25/processor.py:122 | the left strip removes the longest prefix of characters in the set |
| Text.StripRightSpec | src/notebook/24-25/processor.py:122 | the right strip removes the longest suffix of characters in the set |
| Text.Before | src/notebook/24-25/processor.py:34 | `split('.')[0]` is the longest dot-free prefix, and is followed by a dot unless it is the whole string |
| Text.BeforeAt | src/notebook/24-25/processor.py:34 | the text before the first dot of `a + "." + b` is `a` when `a` has no dot |
| Text.Replace | src/notebook/24-25/processor.py:123-124 | the character no longer occurs after replacement when the replacement does not contain it |
| Text.ReplaceAppend | src/notebook/24-25/processor.py:189 | replacement distributes over concatenation |
| Text.ReplaceAbsent | src/notebook/24-25/processor.py:150 | a string without the character is unchanged |
| Text.ContainsAt | src/notebook/24-25/processor.py:94-95 | `str.contains` holds iff the pattern occurs at some position |
| Text.Decimal | src/notebook/24-25/crawler.py:52 | `str()` of a number is a non-empty digit string with that value, starting with `0` only for zero |
| Text.DecimalValue | src/notebook/24-25/crawler.py:46 | a canonical digit string is the decimal text of its value |
| Text.ZeroPad | src/notebook/24-25/crawler.py:111 | padding ends in the original text with zeros before it, up to the width |
| Text.LessTotal | src/notebook/24-25/processor.py:213 | the string order `sort_values` uses compares any two distinct strings |
| Text.LessTransitive | src/notebook/24-25/processor.py:185 | that order is transitive |
| Collections.SortedDistinct | src/notebook/24-25/processor.py:213 | sorting the unique values gives a strictly sorted list with the same members |
| Collections.SortedListingUnique | src/notebook/24-25/processor.py:185 | two strictly sorted lists with the same members are equal, so the sorted listing is determined by the values |
| Collections.Unique | src/notebook/24-25/processor.py:154 | `unique()` has no duplicates and the same members |
| Collections.UniqueFirstAppearance | src/notebook/24-25/processor.py:154 | `unique()` keeps values in the order of their first appearance |
| Collections.Present | src/notebook/24-25/processor.py:146 | dropping missing values keeps exactly the present ones |
| Collections.PresentUnique | src/notebook/24-25/processor.py:154-159 | dropping missing values commutes with `unique()` |
| Collections.PartitionByKey | src/notebook/24-25/processor.py:188-192 | filtering by each key of a duplicate-free list that covers the keys yields, as a multiset, exactly the keyed rows |
| Collections.KeyRowsMembers | src/notebook/24-25/processor.py:190 | `df[df[col] == k]` holds exactly the rows whose key is k |
| Collections.CollectOk | src/notebook/24-25/processor.py:27-40 | the loop completes iff every step succeeds, and then it collects every result in order |
| Collections.CollectFirstError | src/notebook/24-25/processor.py:27-40 | a failing loop fails with the first failing step, all earlier ones having succeeded |
| Collections.FlattenAt | src/notebook/24-25/processor.py:43 | element j of block k sits at the earlier blocks' total length plus j |

## Left out

- **Web access:** HTTP requests, BeautifulSoup and `json.loads` (`get_soup` and `get_json`'s `soup.find`). The page's decoded JSON, or its absence, is the parameter `page`. This does not change the outcome, because `get_soup` and `get_json` catch every exception.
- **Files on disk:**
  - `json.dump`, `open`, the CSV writer and reader, and folders that may not exist;
  - `os.listdir`, whose order is taken as the given file list;
  - a failing write, and the exporters' bare `except` around one;
  - a write is recorded, never performed.
- **Output and timing:** `print` and `time.sleep(random.randint(1, 2))`, which have no effect on the data.
- **Command-line arguments:** `sys.argv` in both scripts. The season is a parameter of the crawler.
  - The processor reads the listed files whatever the command-line season.
  - The processor calls its exporters without a season, so they always write under `S2425`; `Pipeline.ProcessSeason` fixes this folder.
- **`URL_LIST` as a global:** the URL list is passed explicitly. `Crawler.ExportGame` with `None` models the `TypeError` of a failed `get_urls`; the `NameError` when the module is imported without `__main__` is not modelled.
- **Constants:** `GAME_NUM_BASE` is declared but never used by the code. `Crawler.SeasonBase24` relates it to the base `get_urls` computes for season `24`. `HEADERS` only affects the request.
- **JSON values:** JSON numbers are integers; floats are not modelled.
- **Columns:**
  - DataFrame columns other than the 12 the processor touches are kept as opaque cells;
  - pandas dtype inference, the index, and `reset_index` beyond keeping row order are not modelled;
  - `pd.concat` aligning differing column sets is not modelled;
  - every raw file is assumed to carry all 19 export columns and `location`, `teamTricode`, `clock`, `description`, `actionType` and `isFieldGoal`, because `Row` always has them. A file lacking one cannot be expressed, for example an empty `[]` or a game where no action has `shotDistance`. The source raises `KeyError` at `df['location']` (processor.py:73) or at `df[export_columns]` (processor.py:67), and `load_game` aborts. For an empty table the model reports `NoRowsAt("h")` instead, which also aborts the load but with a different error.
- **The written CSV text:** `to_csv` prints NaN and `''` alike as an empty field, and `1` and `"1"` alike in the carried columns. `Rows.Cells` and `Rows.CellsDetermine` are about typed cells only. What reading back loses is modelled by `Exporters.ReadBack` (NaN strings and `''` points become missing), not by the cells.
- **`str.contains` on a missing description:** pandas yields NaN there, and a NaN mask raises. The model keeps descriptions as strings.
- **`int()`:** signs, whitespace and underscores are not modelled. Only all-digit strings parse, which covers every season `get_urls` is given as two digits.
- **`Clock.Parse`:** accepts only what `%M:%S.%f` accepts for clocks shaped like the source's: 1–2 digit minutes and seconds below 60, and 1–6 fraction digits. Everything else counts as a parse failure. pandas' other leniencies are not modelled because the game clocks never use them.
- **What `read_csv` does to the re-read table:** the model covers the NaN strings becoming missing in the four key columns, and `''` points becoming missing. Other columns' type re-inference is not modelled, and other text columns (description, clock, game id) are taken to read back as written.
- **The player file name:** `str(player).replace(' ', '')` maps names that differ only in spaces to the same path, and the later write wins. `Exporters.FileNameSpaces` records the collision; the model lists both writes in order.
