# gameplot ingestion pipeline, modelled in Dafny

gameplot turns per-platform play records (Steam, PlayStation, Xbox, GOG, ...)
into one record per game, then joins that record with a hand-kept annotation
file (rating, status, tags, display name, aliases) for a dashboard. This
project models the pipeline's data transformations and proves what they
promise:

- **Cross-platform merge** (`merge-platforms.py`). Platform files are parsed, an
  `id` repeated within a file is rejected, and each platform is folded into a
  dictionary of games (module `PlatformMerge`). Each game holds five parallel
  per-platform lists (`platforms`, `ids`, `urls`, `hoursPlayedSingle`,
  `lastPlayedSingle`) and two totals (module `Stats`). Every merged game is
  proved `Valid`:
  - the lists have equal length and are not empty;
  - no platform occurs twice;
  - the hours total is the sum of the per-platform hours;
  - the last-played total is the latest per-platform date.
- **Annotation merge** (`process/annotate-games.py`), one module per stage:
  - dropping unrated annotations and alias expansion (`AliasExpansion`);
  - the inner join (`Records`);
  - the collapse by display name (`Collapse`, `CollapsePlatforms`, `TagOrder`);
  - the display url (`UrlPreference`);
  - ordering each game's platforms by play time (`Ordering`, `PlatformOrder`);
  - the whole `merge_annotations` (`Annotate`);
  - the missing-games report (`MissingGames`).
- **Shared helpers** (`process/aux.py`): the list <-> dictionary conversion with
  duplicate-name rejection (`Records`) and the date maximum (`Dates`).
- **GOG overlay** (`process/merge-gog-annotations.py`, module `Gog`) and
  **Steam/ratings join** (`merge-games.py`, module `SteamRatings`).
- **Xbox record shaping** (`scrape/xbox-scraper.py`, module `Xbox`): the played
  filter, and the conversion that combines repeated `titleId`s.

How the Python is represented:
- JSON objects are `map<Field, Value>`. `Field` names the keys the pipeline
  reads and writes, and `Other(name)` stands for any other key.
- Dictionaries are `map<string, Fields>`.
- Dates are the `YYYY-MM-DD` string paired with the calendar day it parses to.
  Comparisons look at the day, so it stays visible which of two equal dates a
  function returns.
- Hours are `real`.
- An `assert` or `raise` that stops a script becomes a `Failure` of a `Result`,
  and so does the `TypeError` the missing-games report hits on `aliases: null`.
- A `KeyError` or `IndexError` on malformed input becomes a precondition.
- Where the script as written has a bug (see "## Findings"), both versions are
  modelled and the pipeline is composed of the corrected one. For the platform
  ordering this means `OrderStats` in place of the script's `sort_by_playtime`;
  "## Left out" names the members this concerns.

Loops that update dictionaries or lists in place are methods. Each is proved
equal to a function, and the lemmas state the properties of those functions.
Where Python's dictionary iteration order matters, the model takes it as an
explicit `order` sequence that lists every key once (`Seqs.Enumerates`). This
happens in two places:
- `expand_aliases` walks the annotation file's order;
- the collapse walks the join's order, which is a set's order and so arbitrary.

## Model

| member | source | states |
|---|---|---|
| Dates.MostRecent | src/merge-platforms.py:165-179 | the result is one of the two dates, not earlier than either, and the first one when both fall on the same day (xbox-scraper.py:237-251 is the same function) |
| Dates.MostRecentOrNone | src/process/aux.py:85-105 | both missing gives none, one missing gives the other, otherwise the later date with the first one on a same-day tie |
| Records.Duplicates | src/process/aux.py:51 | the reported names are exactly those occurring at two positions of the list |
| Records.KeyByGameLast | src/process/aux.py:55 | the keys of `{game['game']: game ...}` are the names, and each holds the last object carrying it |
| Records.KeyByGameFrom | src/process/aux.py:55 | every value of the keyed dictionary is an object of the list carrying that key |
| Records.DropGameField | src/process/aux.py:58-59 | the same keys, no value keeps `game`, every other field unchanged |
| Records.DeleteGameFields | src/process/aux.py:58-59 | the deletion loop yields `DropGameField` of its input |
| Records.ParseGameListSpec | src/process/aux.py:48-59 | the parse fails exactly when a name repeats, naming a non-empty set of the list's names; otherwise the keys are the names and each holds its object without `game` |
| Records.ParseGameJson | src/process/aux.py:34-61 | the duplicate check, keying and deletion loop compute `ParseGameList` |
| Records.WriteGameJson | src/process/aux.py:72-76 | one entry per key, names distinct, each entry the game's object with `game` set to its key |
| Records.WriteThenParse | src/process/aux.py:72-76 | parsing what `write_game_json` emits gives back the dictionary when no value has a `game` field |
| Records.InnerJoin | src/process/annotate-games.py:141-150 | the keys are the intersection, each value has the union of both objects' fields, the second object's value winning on a clash (merge-games.py:151-160 is the same function) |
| Records.InnerJoinDicts | src/process/annotate-games.py:125-152 | the loop over the key intersection yields `InnerJoin`, and the order it visits lists every joined key once |
| Stats.WithStats | src/process/annotate-games.py:218-219 | writing statistics into an object gives back exactly those statistics and leaves every other field alone |
| Stats.EncodeStats | src/merge-platforms.py:127-133 | a merged game's object has exactly the seven statistic fields and reads back as the same statistics |
| PlatformMerge.ParsePlatformEntriesSpec | src/merge-platforms.py:75-81 | a file fails exactly when two objects share an `id`; otherwise the keys are the names and each holds the record of its last object |
| PlatformMerge.KeyByNameLast | src/merge-platforms.py:78-81 | keying by name without the `game` field: every name is a key, holding its last record |
| PlatformMerge.SlotOf | src/merge-platforms.py:142 | a platform has a slot exactly when it is in `platforms`, and the slot names that platform |
| PlatformMerge.FirstStatsSpec | src/merge-platforms.py:127-133 | a game seen first gets a valid entry whose only slot is the record, totals equal to the record's |
| PlatformMerge.AddRecord | src/merge-platforms.py:139-161 | adding a record to an entry keeps the five lists of equal length |
| PlatformMerge.AddRecordSlots | src/merge-platforms.py:139-161 | only the record's platform changes: a new platform gets the record as its slot and is appended last on all five lists, a repeated one leaves platforms, ids and urls as they were, adds the hours and keeps the later date; the hours total grows by the record's hours, the date total becomes the later date |
| PlatformMerge.AddRecordValid | src/merge-platforms.py:139-161 | adding a record keeps an entry valid: distinct platforms, equal lengths, total the sum, date total the latest |
| PlatformMerge.AddToEntry | src/merge-platforms.py:139-161 | the loop body fails exactly when the repeated platform's stored id or url differs from the record's, and otherwise yields `AddRecord` |
| PlatformMerge.MergePlatform | src/merge-platforms.py:108-163 | the loop over the platform's games computes `MergeSpec` |
| PlatformMerge.MergeSpecProps | src/merge-platforms.py:120-163 | merging fails exactly on an id/url clash; otherwise the keys are the union, every entry stays valid, each total grows by the game's hours on the platform, and games the platform lacks are unchanged |
| PlatformMerge.MergeAll | src/merge-platforms.py:203-205 | folding all platforms from nothing yields valid entries only |
| PlatformMerge.MergeAllProps | src/merge-platforms.py:203-205 | a successful merge holds exactly the games of all files, each with its hours summed across the files |
| PlatformMerge.MergePlatformFiles | src/merge-platforms.py:196-205 | parsing every file and merging them yields valid entries only |
| Xbox.FilterPlayedGames | src/scrape/xbox-scraper.py:215-235 | the loop keeps `PlayedGames` and counts every other title as excluded |
| Xbox.PlayedGamesMembers | src/scrape/xbox-scraper.py:226-232 | exactly the titles with a `titleHistory` and a `lastTimePlayed` are kept |
| Xbox.PlayedGamesAppend | src/scrape/xbox-scraper.py:226-232 | filtering distributes over concatenation, so the kept titles stay in their original order |
| Xbox.ConvertToProjectFormat | src/scrape/xbox-scraper.py:253-298 | the loop filling `games_map` and listing its values computes `ConvertSpec` |
| Xbox.ListValues | src/scrape/xbox-scraper.py:298 | the values are listed in key insertion order |
| Xbox.FailureSticks | src/scrape/xbox-scraper.py:289-291 | once a duplicate's fields mismatch, the later titles do not change the outcome |
| Xbox.ConvertKeys | src/scrape/xbox-scraper.py:265-266 | the converted titleIds are exactly those with a playtime entry |
| Xbox.ConvertedId | src/scrape/xbox-scraper.py:265-266 | a converted titleId occurs among the titles and has a playtime entry |
| Xbox.ConvertEntryName | src/scrape/xbox-scraper.py:277-296 | a converted entry carries the name of its titleId's first title |
| Xbox.ConvertEntryHours | src/scrape/xbox-scraper.py:293 | a converted entry's hours are its playtime counted once per title carrying the titleId |
| Xbox.ConvertEntryDate | src/scrape/xbox-scraper.py:292 | a converted entry's date is the latest date of the titles carrying its titleId |
| Xbox.ConvertOrder | src/scrape/xbox-scraper.py:286-298 | the entries come out in the order their titleIds are first seen |
| Xbox.ConvertFailure | src/scrape/xbox-scraper.py:289-291 | the conversion fails exactly when two titles with one titleId and a playtime entry differ in name |
| Xbox.ConvertedParses | src/scrape/xbox-scraper.py:277-284 | the converted list passes the id-uniqueness check of merge-platforms.py |
| SteamRatings.RatedEntriesMembers | src/merge-games.py:84 | exactly the ratings objects whose rating is not `null` are kept |
| SteamRatings.RatedEntriesAppend | src/merge-games.py:84 | the filter distributes over concatenation, so the kept objects stay in file order |
| SteamRatings.RatedLastKept | src/merge-games.py:84-85 | of the rated objects sharing a name, keying by name keeps the last one in file order |
| SteamRatings.ParseRatingsFile | src/merge-games.py:84-88 | the ratings file is filtered, keyed by name and stripped of `game` |
| SteamRatings.ParseSteamFile | src/merge-games.py:105-108 | the Steam file is keyed by name and stripped of `game` |
| SteamRatings.MergeSteamRatings | src/merge-games.py:178-182 | the result is the join of the parsed Steam dictionary with the parsed ratings dictionary |
| SteamRatings.RatedName | src/merge-games.py:84-85 | a name survives the ratings parse exactly when some object with that name is rated |
| SteamRatings.MergeSteamRatingsSpec | src/merge-games.py:164-184 | a game is merged exactly when the Steam list names it and some rated object does; it has a non-null rating and no `game` field |
| Gog.Overlay | src/process/merge-gog-annotations.py:48-58 | the keys are the annotated names GOG knows; `lastPlayed` and `hoursPlayed` come from the annotation, every other field from GOG |
| Gog.MergeGogAnnotations | src/process/merge-gog-annotations.py:32-62 | the loop over the annotated names computes `Overlay` |
| AliasExpansion.Rated | src/process/annotate-games.py:168-174 | exactly the annotations with a non-null rating are kept, unchanged |
| AliasExpansion.DropUnrated | src/process/annotate-games.py:168-174 | the collecting loop and the deleting loop compute `Rated` |
| AliasExpansion.RatedOrderMembers | src/process/annotate-games.py:168-174 | the filtered copy's iteration order lists exactly the rated names of the file order |
| AliasExpansion.RatedOrderAppend | src/process/annotate-games.py:168-174 | the filter distributes over concatenation |
| AliasExpansion.RatedOrderKeepsOrder | src/process/annotate-games.py:168-174 | two rated games keep their relative file order, which decides the first owner of an alias in `expand_aliases` |
| AliasExpansion.RatedOrderEnumerates | src/process/annotate-games.py:173-174 | deleting keys leaves every rated name listed once |
| AliasExpansion.AddAliasesProps | src/process/annotate-games.py:107-116 | the inner loop adds exactly the aliases that were not keys, each as the owner's data marked with its name, and changes no existing key |
| AliasExpansion.ExpandProps | src/process/annotate-games.py:103-119 | every annotation is kept as it was; the new keys are exactly the aliases; each alias that is not a game holds the marked data of the first game listing it |
| AliasExpansion.ExpandAliases | src/process/annotate-games.py:103-119 | the two loops compute `Expand` |
| AliasExpansion.StripMarkers | src/process/annotate-games.py:186-191 | the same keys, no `_isAliasOf` and no `aliases`, every other field unchanged |
| AliasExpansion.RemoveMarkers | src/process/annotate-games.py:186-191 | the deletion loop computes `StripMarkers` |
| TagOrder.BelowIrreflexive | src/process/annotate-games.py:306 | Python's string `<` is irreflexive |
| TagOrder.BelowTransitive | src/process/annotate-games.py:306 | Python's string `<` is transitive |
| TagOrder.BelowTotal | src/process/annotate-games.py:306 | two different strings are ordered one way or the other |
| TagOrder.SortedUnique | src/process/annotate-games.py:306 | `sorted(set(tags))` is strictly increasing and holds exactly the tags |
| TagOrder.AscendingUnique | src/process/annotate-games.py:306 | two strictly increasing lists with the same elements are equal |
| TagOrder.SortedUniqueCanonical | src/process/annotate-games.py:306 | the result depends only on the set of tags, and sorting again changes nothing |
| CollapsePlatforms.CombineSlot | src/process/annotate-games.py:288-298 | a shared platform sums its hours and keeps the later date; it takes the incoming id and url exactly when the incoming date is not earlier |
| CollapsePlatforms.Absorb | src/process/annotate-games.py:281-298 | absorbing one incoming platform keeps the lists of equal length |
| CollapsePlatforms.AbsorbSlots | src/process/annotate-games.py:281-298 | only the absorbed platform changes: a new one gets its incoming slot, a shared one the combination |
| CollapsePlatforms.AbsorbAll | src/process/annotate-games.py:275-298 | the lists stay of equal length through the loop |
| CollapsePlatforms.AbsorbAllSlots | src/process/annotate-games.py:275-298 | after the loop every incoming platform has its merged slot and every other kept platform its old slot |
| CollapsePlatforms.AbsorbAllDistinct | src/process/annotate-games.py:281-286 | the kept platforms stay duplicate-free and no list shrinks |
| CollapsePlatforms.AbsorbAllSum | src/process/annotate-games.py:283-294 | the per-platform hours sum grows by the incoming hours |
| CollapsePlatforms.CollapseStats | src/process/annotate-games.py:275-304 | a collision yields equal-length lists |
| CollapsePlatforms.CollapseStatsProps | src/process/annotate-games.py:275-304 | every platform of either entry has its kept slot, its incoming slot or both combined, and two valid entries collapse to a valid one |
| CollapsePlatforms.LatestOfCollapse | src/process/annotate-games.py:300-303 | the collapsed last-played total is the latest per-platform date |
| CollapsePlatforms.AbsorbIncoming | src/process/annotate-games.py:275-304 | the in-place loop over the incoming platforms and the totals update compute `CollapseStats` |
| Collapse.CollapseEntriesFields | src/process/annotate-games.py:294-306 | a collision keeps every field of the kept entry except the statistics and the tags; the statistics are `CollapseStats` of both |
| Collapse.CollapseEntriesTags | src/process/annotate-games.py:306 | after a collision the tags are the union of both entries' tags, strictly increasing |
| Collapse.DropDisplayName | src/process/annotate-games.py:259-261 | removing `displayName` leaves the statistics, rating, status and tags alone |
| Collapse.CollapseStepKeeps | src/process/annotate-games.py:255-308 | a loop iteration keeps every entry collapsible and free of `displayName` |
| Collapse.CollapseGames | src/process/annotate-games.py:254-310 | a successful collapse holds collapsible entries without `displayName` |
| Collapse.FailureSticks | src/process/annotate-games.py:270-273 | once an assertion fails, the remaining games do not change the outcome |
| Collapse.ConflictingSnoc | src/process/annotate-games.py:270-273 | one more game conflicts exactly when an earlier game of its display name has another rating or status |
| Collapse.NextFails | src/process/annotate-games.py:263-273 | a step fails exactly when the game's group already has another rating or status |
| Collapse.CollideFacts | src/process/annotate-games.py:267-308 | a collision keeps the group's rating and status, sums the hours totals, unites the tags and keeps statistics valid |
| Collapse.CollapseProps | src/process/annotate-games.py:254-310 | the collapse fails exactly when two games of one display name disagree on rating or status; otherwise there is one entry per display name with its group's rating and status, summed hours, united tags and valid statistics |
| Collapse.CollapseLacks | src/process/annotate-games.py:259-306 | a field that no game has and that the collapse does not write is absent from every collapsed entry |
| Collapse.CollapseGame | src/process/annotate-games.py:255-308 | one pass of the loop body computes `CollapseStep`: a new display name is added, a rating or status conflict is an error, and otherwise the game's slots are absorbed into the kept entry |
| Collapse.CollapseByDisplayName | src/process/annotate-games.py:245-310 | the loop computes `CollapseGames`, fails exactly on a conflict, and otherwise meets `Collapsed` |
| UrlPreference.FirstPreferred | src/process/annotate-games.py:236-237 | the first preferred platform the game has, or none when it has none of them |
| UrlPreference.DisplayUrlOf | src/process/annotate-games.py:232-242 | the display url is one of the game's urls |
| UrlPreference.DisplayUrlChoice | src/process/annotate-games.py:232-242 | the Steam slot's url when there is one, else the PS5 slot's, else the first url |
| UrlPreference.DisplayUrlOrdered | src/process/annotate-games.py:196-198 | for a game with a Steam or PS5 platform, ordering the platforms afterwards does not change the display url |
| UrlPreference.PickDisplayUrl | src/process/annotate-games.py:236-242 | the loop over the preferences with its `break`, and the fallback, compute `DisplayUrlOf` |
| UrlPreference.GetDisplayUrl | src/process/annotate-games.py:223-243 | every game gets its `DisplayUrlOf` as `displayUrl`, nothing else changes |
| Ordering.SortDesc | src/process/annotate-games.py:217 | the descending sort is a permutation of its input |
| Ordering.SortDescSorted | src/process/annotate-games.py:217 | its keys are non-increasing |
| Ordering.SortByKeys | src/process/annotate-games.py:217 | sorting items by their keys is the key sort's permutation applied to the items |
| Ordering.SortedKeys | src/process/annotate-games.py:217 | the keys permuted by that permutation are non-increasing |
| Ordering.PermStable | src/process/annotate-games.py:217 | the sort is stable: positions with equal keys keep their input order in the sorting permutation |
| Ordering.ApplyPermMultiset | src/process/annotate-games.py:217-219 | applying the permutation keeps every element |
| PlatformOrder.LastIndex | src/process/annotate-games.py:216 | `dict(zip(...))` keeps a repeated value's last position |
| PlatformOrder.ZipKeysDistinct | src/process/annotate-games.py:216 | a duplicate-free list is sorted by its own slots' hours |
| PlatformOrder.ZipKeysSelf | src/process/annotate-games.py:216 | the hours list is sorted by the hours themselves |
| PlatformOrder.ListPermutation | src/process/annotate-games.py:217-219 | each list is a permutation of its input |
| PlatformOrder.OrderAsWrittenProps | src/process/annotate-games.py:210-221 | as written, every list is a permutation of its input, hours come out non-increasing, and platforms and hours move by one permutation, so each platform keeps its hours |
| PlatformOrder.AsWrittenMisalignsUrls | src/process/annotate-games.py:216-219 | as written, a game with two empty urls and a third url whose hours fall between ends up showing the third url in the first platform's slot |
| PlatformOrder.MisaligningExists | src/process/annotate-games.py:216-219 | such a valid game exists |
| PlatformOrder.OrderStats | src/process/annotate-games.py:210-221 | ordering one game's slots keeps the lists of equal length |
| PlatformOrder.OrderStatsProps | src/process/annotate-games.py:210-221 | ordering by slot keeps a valid game valid, gives every platform exactly its own id, url, hours and date, and makes the hours non-increasing |
| PlatformOrder.OrderStatsStable | src/process/annotate-games.py:217 | platforms with equal hours keep their relative order, as the stable `sorted` leaves them |
| PlatformOrder.OrderGame | src/process/annotate-games.py:212-220 | one game's copy with all five lists re-ordered by the corrected ordering is `OrderedEntry` of the game, so `OrderStatsProps` applies to it |
| PlatformOrder.OrderPlatforms | src/process/annotate-games.py:210-221 | the loop over the games yields, for exactly the same display names, each game's `OrderedEntry`: its statistics ordered slot by slot with the corrected ordering, every other field as it was |
| MissingGames.BuildBlankAnnotations | src/process/annotate-games.py:372-387 | one blank annotation (`null` rating, `null` status, no tags) per given game |
| MissingGames.Blanks | src/process/annotate-games.py:380-386 | the blank dictionary has exactly the given games as keys, each blank |
| MissingGames.BlanksAreUnrated | src/process/annotate-games.py:382-386 | blank annotations are all dropped by the merge until rated |
| MissingGames.AnyIn | src/process/annotate-games.py:354 | `any(alias in games ...)` holds exactly when some alias is a platform game |
| MissingGames.ReportMissingGames | src/process/annotate-games.py:316-370 | the report stops with a `TypeError` exactly when a base annotation that is not a platform game has `aliases: null`; otherwise it gives the platform games not among the expanded annotation keys, the base annotations matched neither by name nor by alias, and blank annotations for the former exactly when there are any |
| MissingGames.MissingPlatformMeaning | src/process/annotate-games.py:341 | a platform game is missing exactly when it is neither an annotated game nor an alias of one |
| MissingGames.MissingNotJoined | src/process/annotate-games.py:345-357 | a game reported without platform data contributes no joined entry, neither under its own name nor under an alias |
| MissingGames.SwappedCallBlanksAnnotated | src/process/annotate-games.py:405 | with the arguments as `main` passes them, an annotated game gets a blank annotation and an unannotated platform game does not |
| MissingGames.BlanksForUnannotated | src/process/annotate-games.py:336-370 | called as declared, blanks go to exactly the platform games that are neither annotated nor an alias |
| Annotate.JoinStripReady | src/process/annotate-games.py:183-191 | joining platform games with annotation parts and removing the markers gives collapsible entries with the platform's statistics, a rating and no marker |
| Annotate.JoinedProps | src/process/annotate-games.py:166-191 | every joined game has a non-null rating, no `_isAliasOf`, no `aliases`, and its platform data's valid statistics |
| Annotate.PresentProps | src/process/annotate-games.py:196-198 | after the display url and the ordering a game shows one of its urls and has valid statistics with hours non-increasing; rating, status, tags, hours total and every platform's slot are unchanged, with the corrected ordering |
| Annotate.PresentGroups | src/process/annotate-games.py:193-198 | every collapsed group, once presented, keeps its summed hours and united tags |
| Annotate.FinishProps | src/process/annotate-games.py:193-199 | the last three stages fail exactly on a rating or status conflict, and otherwise give one presented game per display name |
| Annotate.MergeProps | src/process/annotate-games.py:154-199 | `merge_annotations` fails exactly when two joined games of one display name disagree on rating or status; otherwise it gives one game per display name with a non-null rating, no alias marker or `displayName`, a display url among its urls, valid statistics ordered by descending hours, the group's summed hours and united tags |
| Annotate.FinishMerge | src/process/annotate-games.py:193-199 | the collapse, display-url and ordering calls, with the corrected ordering, compute `Finish` |
| Annotate.MergeAnnotations | src/process/annotate-games.py:154-199 | the stages in the script's order, with the corrected ordering in place of `sort_by_playtime`, compute `MergeSpec`, and the join's order lists every joined game once |

## Left out

- Reading and writing JSON files, argument parsing, logging, timing and the log formatters are left out. Each parse or write is modelled from the list already read, or up to the list about to be written. `write_merged_games` of merge-platforms.py and merge-games.py has the same shape as `write_game_json`.
- The Xbox network calls are left out. The playtime map is a parameter.
- `convert_playtime`, `strptime`, `fromisoformat` and `strftime` are left out. A date carries its calendar day, and the played date of an Xbox title is given already formatted.
- Hours are exact reals, not floats.
- The dashboard engine is not part of this model.
- The orchestration scripts (prepare-data.py, scrape-data.py, process-data.py) are not part of this model.
- Values are immutable. The shallow copies that let the collapse append to lists still shared with the joined dictionary have no counterpart; nothing reads those lists afterwards.
- Dictionary order is an explicit `order` parameter. For the join, the collapse walks the order `InnerJoinDicts` returns, which is the iteration order of a Python set and is not pinned down further.
- Python's `sorted` is modelled as a stable insertion sort (`Ordering.PermStable`).
- `PlatformOrder.OrderGame` and `PlatformOrder.OrderPlatforms` compute the corrected ordering of the first "## Findings" row, one permutation for all five lists. They differ from the script's `sort_by_playtime` on a game with a repeated url, id or date; Xbox urls, for one, are always `""`. `PlatformOrder.OrderStatsAsWritten` is the script's version.
- `Annotate.PresentProps` states "every platform's slot unchanged" of the corrected ordering. The script as written breaks it, as `PlatformOrder.AsWrittenMisalignsUrls` shows.
- `Annotate.FinishMerge` composes the corrected ordering, so `Finish` is the last three stages with the bug of the first "## Findings" row fixed.
- `Annotate.MergeAnnotations` and `Annotate.MergeSpec` compose the corrected ordering too. Every other stage is as the script calls it.
- `Annotate.MergeAnnotations` requires input shaped as the rest of the pipeline writes it, blank annotations included:
  - each platform game has exactly the seven statistic fields and valid statistics;
  - each rated annotation has a rating, a status, a tag list, a string `displayName` if any, an `aliases` list or `null`, and no statistic fields.

  Much other input makes the script raise a `KeyError`, `TypeError` or `IndexError`. Four kinds of input the script accepts are not covered:
  - a joined game without `status` or `tags` that is alone under its display name, since the script reads those only on a collision;
  - an annotation carrying statistic fields, which silently override the platform's through `d1 | d2`;
  - a `null` `displayName`, which becomes the dictionary key `None`;
  - a `null` `lastPlayed`. merge-platforms.py:128-129 copies a game's first `lastPlayed` without parsing it, and the GOG file's `lastPlayed` comes from the hand-kept annotations (merge-gog-annotations.py:53). A GOG-only game with a `null` date that shares a display name with another game then takes the other date through `get_most_recent_date` (aux.py:96-101).
- `Collapse.CollapseGames` requires every joined game to carry statistics, `rating`, `status` and a tag list. The script needs `status` and `tags` only on a collision, and raises a `KeyError` when a colliding game lacks one.
- `Dates.MostRecentOrNone` models the `None` handling of `process/aux.py`. The rest of the model assumes that no date in the merged statistics is `null`, because a `Date` cannot be `null` here. Input that breaks this is listed with the other uncovered inputs of `Annotate.MergeAnnotations`.
- `Xbox.ConvertToProjectFormat` does not model the default name for a title without a `name`, nor the warning for zero hours.
- `base_annotation_names` in `report_missing_games` is computed and never used, and `alias_count` is only logged. Neither is modelled.
- `MissingGames.ReportMissingGames` does not model writing the blank dictionary to disk. It returns the dictionary in `written`.

## Findings

| source | as written | input that shows it | evidently intended | confidence | as-written member | corrected member |
|---|---|---|---|---|---|---|
| src/process/annotate-games.py:216 | each list is sorted by `dict(zip(list, hours)).get`, so a value repeated in `urls`, `ids` or `lastPlayedSingle` takes the hours of its last occurrence, and the list is no longer aligned with `platforms` | three platforms with hours 5, 1, 3 and urls "", "", "u": the platforms become 1st, 3rd, 2nd and the urls "u", "", "", so the first platform shows the third one's url | every list re-ordered by the one permutation that sorts the hours, so each platform keeps its own id, url, hours and date | high; not executed | PlatformOrder.AsWrittenMisalignsUrls | PlatformOrder.OrderStatsProps |
| src/process/annotate-games.py:405 | `main` calls `report_missing_games(platform_data, annotations, ...)` against the signature `(annotations, platform_data, ...)`, so blank annotations are written for annotated games that lack platform data | annotations {"A"} and platform data {"B"}: a blank is written for "A", which is annotated, and none for "B", which is not | blanks for the platform games that neither an annotation nor an alias matches | high; not executed | MissingGames.SwappedCallBlanksAnnotated | MissingGames.BlanksForUnannotated |
