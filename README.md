# SteamGuess data pipeline, modelled in Dafny

SteamGuess is a guess-the-game quiz over Steam titles. Its game data comes
from a set of offline Python scripts:

- They fetch SteamSpy toplists and per-app details from SteamSpy and the Steam Store.
- They prune and clean the raw payloads.
- They convert the JSONL dumps into the game table the quiz loads.
- They slice, filter, intersect and de-duplicate appid lists along the way.

This project models the deterministic core of those scripts. The values
involved are decoded JSON: null, booleans, integers, strings, arrays and
objects whose members keep their insertion order. The model proves what
the scripts promise about that core:

- error conditions and their messages;
- order-preserving de-duplication;
- strict thresholds;
- pruning that keeps exactly the bounded or non-blacklisted values;
- the fallback chains of record assembly;
- the last-row-wins overwrite of the JSONL converter.

Files and modules:

| file | module | models |
|---|---|---|
| `wrappers.dfy` | `Wrappers` | `Option` and `Result` (an exception becomes `Err(message)`) |
| `text.dfy` | `Text` | `str.strip`, `lower`, `split`, `join`, `isdigit`, Python `int()` on strings and `str()` on integers |
| `seqs.dfy` | `Seqs` | filtering, de-duplication (`dict.fromkeys`, a `seen` set), prefix, stable sort |
| `json.dfy` | `Json` | the decoded JSON value, `dict.get`, truthiness, `int()`/`str()` on JSON values, the `{"appids": [...]}`-or-list shape |
| `date_parsing.dfy` | `DateParsing` | the loops that try date formats in turn, with `strptime` as a parameter |
| `fetch_common.dfy` | `FetchCommon` | `scripts/fetch_common.py` |
| `fetch_games.dfy` | `FetchGames` | `scripts/fetch_games.py` |
| `fetch_store_raw.dfy` | `FetchStoreRaw` | `scripts/fetch_store_raw.py` |
| `convert_raw_jsonl.dfy` | `ConvertRawJsonl` | `scripts/convert_raw_jsonl.py` |
| `fetch_toplist.dfy` | `FetchToplist` | `scripts/fetch_toplist.py` |
| `filter_spy_appids.dfy` | `FilterSpyAppids` | `scripts/filter_spy_appids.py` |
| `intersect_appids.dfy` | `IntersectAppids` | `scripts/intersect_appids.py` |
| `db_fetch_id.dfy` | `DbFetchId` | `scripts/db_fetch_id.py` |

Where a script changes state in a loop, the model has a method with that
loop. Examples are the `seen` set and the `appids` list of
`normalize_appids`, the `games` dict of `convert` and the counters of
`filter_spy_appids.main`. Each method is proved equal to a specification
function, and the lemmas about that function state the promised
properties. Recursive tree rewrites and straight-line code are functions.

## Model

| member | source | states |
|---|---|---|
| `DateParsing.FirstParse` | scripts/fetch_common.py:181-185 | The result is the rendering under the first format that accepts the text, and there is none exactly when no format accepts it. |
| `FetchCommon.LoadLocalAppids` | scripts/fetch_common.py:96-114 | A top level other than `{"appids": list}` or a list fails with the format message. Otherwise the result is the items `int()` accepts, converted, in file order. |
| `FetchCommon.ApplyIndexRange` | scripts/fetch_common.py:117-128 | Fails for a negative start, then for an `end` other than -1 below `start`, then for a negative `top_n`, and succeeds exactly when none of these holds. Element `i` is `appids[start + i]` (a contiguous run in order). The length is that of `appids[start:end]` (or `appids[start:]`), capped at `top_n` when `top_n > 0`. |
| `FetchCommon.DoneKeys` | scripts/fetch_common.py:136-148 | An appid is recorded exactly when some line, once stripped and decoded, is a one-key object whose key `int()` accepts. |
| `FetchCommon.LoadDoneAppids` | scripts/fetch_common.py:131-148 | The `done` set built by the loop holds exactly the appids the lines record. |
| `FetchCommon.DateText` | scripts/fetch_common.py:164-187 | Blank text and "coming soon", "to be announced", "tba" or "soon" (in any case) give `""`. Otherwise, when some format parses the text, the result is the rendering under the first such format: that format parses to it and every earlier one fails. Text no format parses comes back unchanged. |
| `FetchCommon.NormalizeDate` | scripts/fetch_common.py:155-187 | `None` gives `""`, as does a number `<= 0`. A positive number goes through the timestamp conversion. Anything else is `str()`-ed, stripped and handled as text. |
| `FetchCommon.NormalizeDateUnparsedStable` | scripts/fetch_common.py:164-187 | A string no format parses normalises to `""` or to its stripped self, and normalising that result again changes nothing. |
| `FetchGames.RequestParam` | scripts/fetch_games.py:75 | The `request` value used is the first non-blank one in the query. `""` means the query has none. |
| `FetchGames.ChooseLimiter` | scripts/fetch_games.py:70-83 | The tag is one of four. `steamspy:all` holds exactly for a steamspy.com host whose `request` lower-cases to `all`, and `steamspy:normal` for any other steamspy.com host. `store` is for a store.steampowered.com host that is not a steamspy host, and `default` for everything else. |
| `FetchGames.ChooseLimiterIgnoresHostCase` | scripts/fetch_games.py:72 | The host is compared case-insensitively. |
| `FetchGames.Pruned` | scripts/fetch_games.py:170-194 | Null is dropped, and booleans and integers pass unchanged. A string is dropped exactly when longer than 600 characters, else kept unchanged. A list is dropped whole exactly when longer than 200 items, never truncated. An object is never dropped itself. |
| `FetchGames.PruneStorePayload` | scripts/fetch_games.py:170-194 | The recursive method with its `pruned` and `out` loops computes `Pruned`. |
| `FetchGames.PrunedIsBounded` | scripts/fetch_games.py:170-194 | Whatever survives pruning has no null, no string over 600 characters and no list over 200 items, at any depth. |
| `FetchGames.PruneKeepsBounded` | scripts/fetch_games.py:170-194 | A value that is already bounded is returned unchanged. |
| `FetchGames.PruneIdempotent` | scripts/fetch_games.py:170-194 | Pruning a pruned value changes nothing. |
| `FetchGames.PrunedItemsAreFilterMap` | scripts/fetch_games.py:182-187 | A kept list is its items pruned in order, with the ones that come back `None` left out. |
| `FetchGames.PrunedMembersKept` | scripts/fetch_games.py:171-177 | A member is in the pruned object exactly when some original member has the same key and a value that prunes to it. |
| `FetchGames.PrunedMembersKeepKeyOrder` | scripts/fetch_games.py:171-177 | The surviving keys keep their original relative order. |
| `FetchGames.LoadLocalAppids` | scripts/fetch_games.py:129-151 | A top level of the wrong shape fails. Otherwise the result is the first `top_n` convertible items when `0 < top_n`, else all of them, in order. |
| `FetchGames.ResumeFilter` | scripts/fetch_games.py:275-279 | The pending list keeps exactly the ids not yet done, in their original order. Each pending id occurs as many times as in the input, and a done id not at all. An empty done set leaves the list as it is. |
| `FetchStoreRaw.Dropped` | scripts/fetch_store_raw.py:54-75 | A value at a blacklisted dotted path is removed. Otherwise exactly null is removed, and booleans, integers and strings pass unchanged. Objects stay objects and lists stay lists, never longer than before. |
| `FetchStoreRaw.DropBlacklistedFields` | scripts/fetch_store_raw.py:54-75 | The recursive method with its `out` and `out_list` loops computes `Dropped`. |
| `FetchStoreRaw.RootKept` | scripts/fetch_store_raw.py:55-57 | The root path is empty and never blacklisted, so the root is removed only when it is null. |
| `FetchStoreRaw.DroppedIsClean` | scripts/fetch_store_raw.py:54-75 | The result holds no null and no value at a blacklisted path. Object members are checked under their key's path, and list items under the list's own path. |
| `FetchStoreRaw.CleanKept` | scripts/fetch_store_raw.py:54-75 | A value that is already clean is returned unchanged. |
| `FetchStoreRaw.DropIdempotent` | scripts/fetch_store_raw.py:54-75 | Dropping twice is dropping once. |
| `FetchStoreRaw.DroppedMembersKept` | scripts/fetch_store_raw.py:59-65 | A member survives exactly when its value, visited at the path extended by its key, comes back under the same key. |
| `FetchStoreRaw.DroppedItemsFilterMap` | scripts/fetch_store_raw.py:67-73 | List items are visited with the list's own path, and those that come back `None` are left out in order. |
| `FetchStoreRaw.ShippedBlacklistRemovesDescriptions` | scripts/fetch_store_raw.py:45-51 | With the shipped blacklist, no key of a `data` object left in the result is one of the five description fields. |
| `FetchStoreRaw.StoreEntry` | scripts/fetch_store_raw.py:87 | The entry is the member under `str(appid)` when the response is an object that holds it, else `{}`. |
| `FetchStoreRaw.ReleaseText` | scripts/fetch_store_raw.py:99-105 | The release text is `release_date.date` (or `""`) when `release_date` is an object, and `""` when it is absent or null. Any other value is `str(release_date)`, which for a string is the string itself. |
| `FetchStoreRaw.BuildStoreRecord` | scripts/fetch_store_raw.py:85-114 | A record exists exactly when the entry is an object with a truthy `success`. It is keyed by `str(appid)` and carries the cleaned payload. Its name is `data.name` or `""`, and its release date is the normalised release text. |
| `ConvertRawJsonl.ParseReleaseDate` | scripts/convert_raw_jsonl.py:25-34 | Blank input and input none of the three formats parses give `1970-01-01`. Otherwise the result is the parse under the first of the three formats that accepts the stripped text: that format gives it and every earlier one fails. |
| `ConvertRawJsonl.ToInt` | scripts/convert_raw_jsonl.py:37-41 | The result is `int(value)` when that succeeds, else the default. |
| `ConvertRawJsonl.ToIntOfIntString` | scripts/convert_raw_jsonl.py:37-41 | `to_int` of the decimal text of an integer gives that integer back. |
| `ConvertRawJsonl.ParseOwnersUpper` | scripts/convert_raw_jsonl.py:44-51 | Gives 0 for an empty string and for a split on `..` that does not give exactly two parts. A non-zero result is the value of the upper part, stripped and with its commas removed, which is all digits. The result is never negative. |
| `ConvertRawJsonl.OwnersUpperOfRange` | scripts/convert_raw_jsonl.py:44-51 | For a SteamSpy range `lo .. hi` with a comma-grouped upper bound, the result is that bound's value. |
| `ConvertRawJsonl.ExtractStorePayload` | scripts/convert_raw_jsonl.py:54-60 | The result is `from_store["data"]` when it is an object, else `{}`. |
| `ConvertRawJsonl.ExtractSpyTags` | scripts/convert_raw_jsonl.py:63-67 | The result is the keys of `tags`, in order, when `tags` is an object, else `[]`. |
| `ConvertRawJsonl.ReleaseRaw` | scripts/convert_raw_jsonl.py:76 | A falsy `release_date` or `date` gives `""`, and a string `date` is itself. A truthy `release_date` that is not a dict, or a truthy `date` that is not a string, raises. |
| `ConvertRawJsonl.ListOrEmpty` | scripts/convert_raw_jsonl.py:94-100 | `developers` and `publishers` are the stored list, or `[]` for anything else. |
| `ConvertRawJsonl.ScreenshotUrl` | scripts/convert_raw_jsonl.py:102-107 | There is no URL without a non-empty screenshot list whose first item is an object. Otherwise the URL falls back from `path_full` to `path_thumbnail` to `""`. |
| `ConvertRawJsonl.GameName` | scripts/convert_raw_jsonl.py:75 | The name falls back from the store name to the SteamSpy name to `App <appid>`. |
| `ConvertRawJsonl.BuildGame` | scripts/convert_raw_jsonl.py:70-143 | There is no game without a non-empty `data` object, and otherwise it raises exactly when the release date does. The game carries the appid, the fallback name and the parsed release date. The review total is `max(0, positive + negative)`, and a free game's price is 0. The owners, currency, price, CCU, SteamSpy tags, developers, publishers, screenshot URL and header image are as extracted. |
| `ConvertRawJsonl.OwnersOf` | scripts/convert_raw_jsonl.py:88 | A missing `owners` field counts as 0. Otherwise the owners are the upper bound parsed from `str(owners)`. |
| `ConvertRawJsonl.Currency` | scripts/convert_raw_jsonl.py:78-83 | The currency is `price_overview.currency` (or `""`) when `price_overview` is an object, and `""` otherwise. |
| `ConvertRawJsonl.PriceCents` | scripts/convert_raw_jsonl.py:78-85 | A free game costs 0. Otherwise the price is `int(price_overview.final)` (0 when that fails) when `price_overview` is an object, and 0 when it is not. |
| `ConvertRawJsonl.HeaderImage` | scripts/convert_raw_jsonl.py:109 | The header image is the stored value when truthy, else `""`. |
| `ConvertRawJsonl.GameRecord` | scripts/convert_raw_jsonl.py:75-143 | Each field of the assembled game comes from its extraction: the fallback name, the release date given, the price pair, the SteamSpy counts with the review total `max(0, positive + negative)`, the tags, lists and images. |
| `ConvertRawJsonl.PartOf` | scripts/convert_raw_jsonl.py:177-182 | `from_store` and `from_spy` are the payload's objects under those keys, or `{}`. |
| `ConvertRawJsonl.AcceptedRow` | scripts/convert_raw_jsonl.py:151-175 | A line is processed exactly when it is non-blank and decodes to a one-key object whose value is an object and whose key `int()` accepts. It gives that appid and payload. |
| `ConvertRawJsonl.RowGame` | scripts/convert_raw_jsonl.py:150-186 | A skipped line contributes nothing. A processed row raises exactly when `build_game` does, with its error. It contributes nothing when `build_game` gives no game, and otherwise the game `build_game` gives, stored under `str(appid)`. |
| `ConvertRawJsonl.Put` | scripts/convert_raw_jsonl.py:187-188 | Assigning `games[key]` keeps the table's key order duplicate-free and in step with its entries. |
| `ConvertRawJsonl.Collect` | scripts/convert_raw_jsonl.py:146-190 | A completed conversion yields a well-formed table, whose size is the count `convert` returns. |
| `ConvertRawJsonl.CollectAborts` | scripts/convert_raw_jsonl.py:185 | An exception from `build_game` ends the conversion, and the rows after it change nothing. |
| `ConvertRawJsonl.Convert` | scripts/convert_raw_jsonl.py:146-190 | The row loop over the input's lines builds `Collect` of the rows. |
| `ConvertRawJsonl.CollectKeys` | scripts/convert_raw_jsonl.py:161-188 | The table's keys are exactly the keys of the accepted rows. |
| `ConvertRawJsonl.CollectOrder` | scripts/convert_raw_jsonl.py:186-189 | The dict's key order is the keys of the accepted rows, each once, at the place of its first row. |
| `ConvertRawJsonl.CollectLastRowWins` | scripts/convert_raw_jsonl.py:186-188 | When no later row has the same key, a row's game is the one the table keeps for its key, so the last row with a key wins. |
| `FetchToplist.EntryId` | scripts/fetch_toplist.py:63-76 | An entry's id is `int(value["appid"])` when the value is an object holding a convertible `appid`, else `int(key)`. The entry is skipped exactly when neither converts. |
| `FetchToplist.NormalizeAppids` | scripts/fetch_toplist.py:53-82 | A non-object toplist gives `[]`. The loop with its `seen` set computes the entry ids, each kept once. |
| `FetchToplist.NormalizedIds` | scripts/fetch_toplist.py:53-82 | The list has no duplicates and holds exactly the ids some entry yields. |
| `FetchToplist.NormalizedFirstOccurrenceOrder` | scripts/fetch_toplist.py:78-80 | Ids appear in the order their first entry produces them. |
| `FetchToplist.Toplist` | scripts/fetch_toplist.py:96-116 | A timeout `<= 0` fails first, then a negative `top_n`, and the run succeeds exactly when neither holds. With `top_n > 0` the saved list is the first `top_n` normalised ids, and with `0` it is all of them. |
| `FetchToplist.ToplistPrefix` | scripts/fetch_toplist.py:115-116 | The saved list is a duplicate-free prefix of the normalised list, and no longer than `top_n` when `top_n > 0`. |
| `FilterSpyAppids.DropNewline` | scripts/filter_spy_appids.py:57 | `$` also matches before one final newline: the name is the text searched, plus an optional trailing newline. |
| `FilterSpyAppids.PageIndex` | scripts/filter_spy_appids.py:56-60 | The index is the number in a trailing `page<digits>.json` when there is one, else `10**9`. |
| `FilterSpyAppids.PageIndexOfName` | scripts/filter_spy_appids.py:56-60 | Any name ending in `page<digits>.json` has the value of those digits as its index. |
| `FilterSpyAppids.PageNumberShape` | scripts/filter_spy_appids.py:56-60 | A number is found only in a name of the form `…page<digits>.json`, optionally followed by one newline, and it is the value of those digits. |
| `FilterSpyAppids.ExtractAppid` | scripts/filter_spy_appids.py:71-83 | The result is `str(int(value["appid"]))` when the value is an object with a non-null, convertible `appid`, else `str(int(key))`, else `None`. |
| `FilterSpyAppids.ExtractCcu` | scripts/filter_spy_appids.py:86-97 | There is a CCU exactly when the value is an object with a non-null, `int()`-convertible `ccu`, and it is `int(ccu)`. |
| `FilterSpyAppids.Candidate` | scripts/filter_spy_appids.py:128-136 | An entry is a candidate exactly when its CCU exists and is strictly above `min_ccu`, and it then yields the extracted appid. |
| `FilterSpyAppids.SelectedIds` | scripts/filter_spy_appids.py:128-139 | The kept appids are unique and are exactly those some entry yields as a candidate. |
| `FilterSpyAppids.SelectedFirstOccurrenceOrder` | scripts/filter_spy_appids.py:135-139 | Kept appids follow the order of their first candidate entry. |
| `FilterSpyAppids.PageFilesOrder` | scripts/filter_spy_appids.py:110 | The pages are the `page*.json` files sorted by page index. They are a permutation of those files, and files with equal index keep their listing order (a stable sort). |
| `FilterSpyAppids.ScanOk` | scripts/filter_spy_appids.py:63-68 | Reading the pages succeeds exactly when every page holds a JSON object. |
| `FilterSpyAppids.ScanAborts` | scripts/filter_spy_appids.py:66-67 | The first page that is not an object ends the run. |
| `FilterSpyAppids.Selection` | scripts/filter_spy_appids.py:100-152 | A negative `min_ccu` fails first, then an empty page list with the "No page*.json" message. The run succeeds exactly when neither holds and every page is an object. |
| `FilterSpyAppids.SelectionKeeps` | scripts/filter_spy_appids.py:119-140 | `appids` is duplicate-free and holds exactly the candidates of the scanned entries. `appidsMatched` is its length and `totalEntriesScanned` counts every entry. The entries are exactly the members of the pages. |
| `FilterSpyAppids.FilterSpy` | scripts/filter_spy_appids.py:100-152 | `main`'s checks and loops compute `Selection`. |
| `FilterSpyAppids.ScanPages` | scripts/filter_spy_appids.py:119-140 | The loop over the pages keeps the counters and lists equal to those of the pages read so far. |
| `FilterSpyAppids.SelectFromPage` | scripts/filter_spy_appids.py:127-139 | One page's loop extends `appids`, `seen` and both counters exactly as selection over the longer entry list would. |
| `IntersectAppids.Loaded` | scripts/intersect_appids.py:33-56 | A top level other than `{"appids": list}` or a list fails, naming the file. |
| `IntersectAppids.LoadAppids` | scripts/intersect_appids.py:33-56 | The loop with its `seen` set computes `Loaded`. |
| `IntersectAppids.LoadedIds` | scripts/intersect_appids.py:45-56 | A loaded list has no duplicates and holds exactly the `str(int(item))` forms of the convertible items. |
| `IntersectAppids.LoadAll` | scripts/intersect_appids.py:66 | Loading succeeds exactly when every file loads, and list `k` is then file `k`'s list. A failure is that of the first file that fails. |
| `IntersectAppids.IntersectionIds` | scripts/intersect_appids.py:68-73 | The intersection holds exactly the ids present in every list. It is a subsequence of the first list and, like it, has no duplicates. |
| `IntersectAppids.IntersectResult` | scripts/intersect_appids.py:59-73 | Fewer than two inputs fail, and the run succeeds exactly when there are two or more and all load. |
| `IntersectAppids.IntersectResultIds` | scripts/intersect_appids.py:59-73 | A successful run holds exactly the ids every file's list holds, each once, in the first file's order. |
| `IntersectAppids.Intersect` | scripts/intersect_appids.py:59-73 | `main` computes `IntersectResult`. |
| `IntersectAppids.LoadLists` | scripts/intersect_appids.py:66 | The list comprehension over the inputs computes `LoadAll`. |
| `IntersectAppids.NarrowedSet` | scripts/intersect_appids.py:68-71 | After the `&=` loop the set holds exactly the first list's ids present in every list. |
| `IntersectAppids.Ordered` | scripts/intersect_appids.py:73 | The ordered comprehension computes the intersection. |
| `DbFetchId.MatchAt` | scripts/db_fetch_id.py:8 | A match at a position is `data-appid="`, one or more digits and a closing quote. Wherever that pattern starts, there is a match, and it ends just after that quote. |
| `DbFetchId.FindAllFrom` | scripts/db_fetch_id.py:8 | Every string `findall` returns is a non-empty run of digits. |
| `DbFetchId.ExtractAppids` | scripts/db_fetch_id.py:7-10 | The ids have no duplicates and are exactly the strings `findall` returns. |
| `DbFetchId.Captured` | scripts/db_fetch_id.py:8 | A capture is a non-empty digit string. |
| `DbFetchId.FindAllSound` | scripts/db_fetch_id.py:8 | Every capture `findall` returns comes from a match in the text. |
| `DbFetchId.NoOverlap` | scripts/db_fetch_id.py:8 | No match starts inside another. |
| `DbFetchId.FindAllCapturesEveryMatch` | scripts/db_fetch_id.py:8 | `findall` returns the capture of every match in the text. |
| `DbFetchId.ExtractAppidsSpec` | scripts/db_fetch_id.py:7-10 | The extracted ids have no duplicates. Each is the digit string of some `data-appid="…"` in the text, and every such digit string is extracted. |
| `DbFetchId.ExtractAppidsOrder` | scripts/db_fetch_id.py:10 | Ids keep the order of their first occurrence in the text. |
| `DbFetchId.FirstEightDigits` | scripts/db_fetch_id.py:14 | A position found is at or after the start and begins eight digits. |
| `DbFetchId.FirstEightDigitsLeftmost` | scripts/db_fetch_id.py:14 | The search finds the leftmost run of eight digits, or reports correctly that there is none. |
| `DbFetchId.InferDate` | scripts/db_fetch_id.py:14-16 | The inferred date is eight digits. |
| `DbFetchId.InferDateSpec` | scripts/db_fetch_id.py:13-16 | The date is the leftmost eight consecutive digits of the name, and there is none exactly when the name has no such run. |

## Left out

- Network access is left out: `http_get_json`, its retries, back-off and jitter, and the `fetch_*` request builders.
- The rate limiters (a monotonic clock and sleeps) are left out. `choose_limiter` is modelled as the tag it returns.
- `datetime.strptime`, `strftime` and `datetime.fromtimestamp` are function parameters. Format matching is not modelled, only the fallbacks around it.
- `json.loads` of a JSONL line is a function parameter, and `None` stands for a decode error. Files, pages and toplists are given already decoded. A page that fails to decode is left out.
- File reads and writes, existence checks, directory creation, argument parsing, logging and progress output are left out. The "file not found" and "input dir not found" errors are I/O checks and are not modelled.
- Clock-derived values are left out: `now_timestamp`, the `generatedAt` stamp and the `datetime.now()` fallback of `infer_date_from_filename`. `DbFetchId.InferDate` returns `None` where the script would use today's date.
- Floats are left out. The price of a game is kept in integer cents (`price_overview.final`), not `round(final / 100, 2)`, and `int()` of a float and a float `normalize_date` argument are not modelled.
- Python `int()` is modelled on integers, booleans and strings holding an optionally signed run of ASCII digits once Python's whitespace is stripped. Underscore separators and non-ASCII digits are not modelled, and `int()` of any other value fails.
- `str.isdigit` and the regex `\d` accept only the ASCII digits `0`-`9` here. Python also accepts other Unicode decimal digits.
- `Text.Lower` lower-cases only the ASCII letters `A`-`Z`. Python's `lower()` also folds non-ASCII letters. This affects the `request` value of `choose_limiter` and the "coming soon" check of `normalize_date`.
- `Text.Strip` and `Text.IsSpace` do follow Python's complete `str.isspace()` set.
- `Json.Repr` renders `str()` of a non-string value with Python's single quotes around strings and keys. It does not escape characters inside them, and it does not switch to double quotes for a string holding a single quote. This only matters where a field expected to be a string is a list or an object: the game name, currency, screenshot URL and owners in `convert_raw_jsonl.py`, and `str(release)` and `str(date_text)` in `fetch_store_raw.py` and `fetch_common.py`.
- JSON objects are taken to have distinct keys, as decoded dicts do.
- The order in which `glob` lists a directory is an input. The model sorts the given listing stably by page index, as `sorted` does.
- `FilterSpyAppids.NotObjectError`: the message names the page's file name, not its full path.
- `FetchGames.RequestParam`: the query is given already split into decoded name/value pairs, as `parse_qs` returns them. URL parsing itself is not modelled.
- The copy of `load_done_appids_from_jsonl` in `scripts/fetch_games.py:212-229` has the same logic as the one in `scripts/fetch_common.py`, and only the latter is modelled.
- `build_raw_record` and `fetch_store_meta` in `scripts/fetch_games.py` and the other scripts of the repository (`spy_fetch_all.py`, `fetch_steamspy_raw.py`) are not part of this model.
