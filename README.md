# Watson's LogBlock result parsing and edit store, in Dafny

Watson is a client-side mod that reads the results of LogBlock queries as
they arrive in chat and turns them into a time-ordered record of who
changed which block, where and when. This project models three parts of it:

- `LbCoordsAnalysis` (module `LbCoords`, file `lb_coords.dfy`): the handlers
  for "/lb coords" result lines (plain, kill and replacement results), for
  "Page n/m" lines and for the result headers. The handlers decode the
  groups captured by their patterns into an edit, queue it, pick a chat
  colour by spatial proximity, and keep a small pagination state machine
  (`currentPage`, `pageCount`) that sends "/lb page n+1" at most once per
  page line.
- `PlayerEditSet` (module `Db`, file `db.dfy`): one player's edits, kept in a
  set ordered by a comparator from oldest to newest, with insertion,
  predecessor and successor lookup, the oldest edit at a block, a count, a
  visibility flag, and `save`, which writes one pipe-separated line per
  edit.
- `RegionInfoAnalysis` (module `RegionInfo`, file `region_info.dfy`): when
  WorldGuard lists the regions at a point, send "/region info <name>" for
  each name in the list, then hold off further sends until the chat queue
  has sent them all.

`numbers.dfy` models Java's `Integer.parseInt`, 32-bit wrap-around and the
`%d`, `%02d` and `%4d` conversions as they come out with ASCII digits; `wrappers.dfy` holds the `Option` type.
`scenarios.dfy` runs sequences of lines through the analyses and states
what they send and store.

How the Java maps onto the model:

- A handler receives the captured groups as a `seq<string>`: `g[i - 1]` is
  `m.group(i)` and `|g|` is `m.groupCount()`. Reading a group that is not
  there throws, as `Matcher.group` does.
- Queuing an `AddBlockEditTask` is an append to the field `tasks`.
  `Controller.serverChat` is an append to the field `outbox`.
- An exception caught inside a handler is a decoder returning `None`. The
  handler then changes nothing. An exception that leaves `lbPage` is the
  handler result `Raised`.
- The `TreeSet` of a `PlayerEditSet` is the field `edits`. It is a sequence
  kept strictly ordered by the store's comparator `before`. `before` is any
  strict total order on an edit's immutable content, because
  `BlockEditComparator` is not part of this model. Iterating the set walks
  `edits` from index 0.
- `System.currentTimeMillis()` is the parameter `now`. The configured
  timeouts are parameters in whole milliseconds. `TimeStamp.parseYMD`,
  `TimeStamp.toMillis`, the `BlockTypeRegistry` lookups and `Calendar` are
  function-valued parameters.
- The colour codes of `ColourCycle` are assumed to be the Minecraft chat
  codes of red, orange, yellow, light green, light blue, purple and magenta,
  in that order, because `Colour` is not part of this model.

Two behaviours of the code worth knowing:

- The region-info gate compares `now - lastCommandTime` with the
  region-info timeout. A further list is therefore sent only once
  `now > lastCommandTime + timeout`, and not as soon as `now` passes
  `lastCommandTime`.
- A coords line that fails to decode is not echoed: the coords
  handlers return `false` whatever happens inside them.

## Model

| member | source | states |
|---|---|---|
| `Numbers.ParseInt` | src/watson/analysis/LbCoordsAnalysis.java:125-129 | `Integer.parseInt`: an optional sign and at least one digit, with a value that fits in 32 bits; anything else fails |
| `Numbers.ParseDecimal` | src/watson/db/PlayerEditSet.java:302-304 | `parseInt` reads back every 32-bit value that `%d` writes |
| `Numbers.Wrap32` | src/watson/analysis/LbCoordsAnalysis.java:425-430 | Java int arithmetic: the result is a 32-bit value congruent to the exact one, and equal to it when that fits |
| `LbCoords.DecodeTime` | src/watson/analysis/LbCoordsAnalysis.java:125-130 | a result's time exists exactly when the index, date, hour, minute and second all parse, and it is `toMillis` of those values |
| `LbCoords.DecodeCoord` | src/watson/analysis/LbCoordsAnalysis.java:125-158 | a plain line decodes exactly when it has 11 or more groups and its time and coordinates parse; the edit's time is the decoded time; coordinates come from groups 13-15 when there are 15 groups and from 9-11 otherwise; the edit is a creation exactly when the action is "created" |
| `LbCoords.DecodeKill` | src/watson/analysis/LbCoordsAnalysis.java:214-242 | a kill line decodes exactly when its time and groups 8-10 parse; the edit has the decoded time and is always a destruction of the victim's kill type |
| `LbCoords.DecodeReplaced` | src/watson/analysis/LbCoordsAnalysis.java:295-311 | a replacement line decodes exactly when its time and groups 9-11 parse; the edit has the decoded time and is always a destruction of the old block (group 7) |
| `LbCoords.ReplacedIgnoresNewBlock` | src/watson/analysis/LbCoordsAnalysis.java:302-311 | changing the new-block group 8 never changes what a replacement line decodes to |
| `LbCoords.CoordLineDecodes` | src/watson/analysis/LbCoordsAnalysis.java:125-158 | a plain line built from an edit's fields (hour, minute and second written with two digits, as chat shows them), with or without the four sign groups, decodes back to that edit |
| `LbCoords.KillLineDecodes` | src/watson/analysis/LbCoordsAnalysis.java:214-242 | a kill line built from a kill's fields decodes back to the destruction of the victim's kill type at those coordinates |
| `LbCoords.ReplacedLineDecodes` | src/watson/analysis/LbCoordsAnalysis.java:295-311 | a replacement line decodes back to the destruction of the old block, whatever the new block is |
| `LbCoords.NextColourIndex` | src/watson/analysis/LbCoordsAnalysis.java:425-434 | the colour index stays in [0, 7), changes exactly when the squared distance exceeds 16, and then moves to (index + 1) mod 7 |
| `LbCoords.SquaredDistance32` | src/watson/analysis/LbCoordsAnalysis.java:425-430 | the squared distance as the int arithmetic of the code computes it, always a 32-bit value |
| `LbCoords.WrappedDistanceMissesFarResult` | src/watson/analysis/LbCoordsAnalysis.java:425-434 | as written, a result 65536 blocks away wraps to distance 0 and keeps the colour, where the exact distance changes it |
| `LbCoords.WrappedDistanceAgreesNearby` | src/watson/analysis/LbCoordsAnalysis.java:425-431 | within 26754 blocks on each axis the int arithmetic and the exact distance agree |
| `LbCoords.WantsNextPage` | src/watson/analysis/LbCoordsAnalysis.java:402-405 | a next page is due only when auto-paging is on, the current page is set and below the page count, and the count is within the maximum; the page asked for is then at most the count and the maximum |
| `LbCoords.PageCommand` | src/watson/analysis/LbCoordsAnalysis.java:407 | the request is "/lb page " followed by a number that `parseInt` reads back as the page asked for |
| `LbCoords.LbCoordsAnalysis.constructor` | src/watson/analysis/LbCoordsAnalysis.java:462-484 | no page state, the colour index at the end of the cycle, the last coordinates at the origin, nothing queued or sent |
| `LbCoords.LbCoordsAnalysis.OnMatchedChat` | src/watson/analysis/LbCoordsAnalysis.java:50-109 | coords lines are never echoed and have their handler's whole effect; page and header lines are echoed, set or clear the page state, and touch nothing else; a page line that does not parse throws |
| `LbCoords.LbCoordsAnalysis.LbCoord` | src/watson/analysis/LbCoordsAnalysis.java:116-204 | a plain line that decodes is queued, steps the colour and checks for a next page; one that does not changes nothing |
| `LbCoords.LbCoordsAnalysis.LbCoordKills` | src/watson/analysis/LbCoordsAnalysis.java:210-284 | the same for a kill line |
| `LbCoords.LbCoordsAnalysis.LbCoordReplaced` | src/watson/analysis/LbCoordsAnalysis.java:291-351 | the same for a replacement line |
| `LbCoords.LbCoordsAnalysis.Accept` | src/watson/analysis/LbCoordsAnalysis.java:158-198 | a decoded edit is appended to the task queue, then the colour steps, then the next-page check runs |
| `LbCoords.LbCoordsAnalysis.LbPage` | src/watson/analysis/LbCoordsAnalysis.java:362-377 | a page count within the maximum sets both numbers to those reported, a larger one clears both; numbers that do not parse change nothing |
| `LbCoords.LbCoordsAnalysis.LbHeader` | src/watson/analysis/LbCoordsAnalysis.java:389-392 | any header clears the current page and the page count |
| `LbCoords.LbCoordsAnalysis.RequestNextPage` | src/watson/analysis/LbCoordsAnalysis.java:400-414 | one "/lb page current+1" is sent exactly when auto-paging is on, the current page is set and below the page count, and the count is within the maximum; the state is then cleared, so no second request is due; otherwise nothing changes |
| `LbCoords.LbCoordsAnalysis.GetChatColourChar` | src/watson/analysis/LbCoordsAnalysis.java:422-440 | the colour moves on exactly when the new block is farther than 4 from the last one, the new block becomes the last one, and the code returned is the current colour |
| `Db.OrderedByTime` | src/watson/db/PlayerEditSet.java:316-320 | with a comparator that compares times first, walking the store never goes back in time |
| `Db.Insert` | src/watson/db/PlayerEditSet.java:111 | `TreeSet.add`: every element stays, nothing but the new edit enters, and the size grows by at most one |
| `Db.InsertOrdered` | src/watson/db/PlayerEditSet.java:109-111 | adding an edit keeps the set strictly ordered |
| `Db.InsertElements` | src/watson/db/PlayerEditSet.java:109-111 | an edit equal to an element leaves the set as it was; any other edit is added once, and the size grows by exactly one; nothing else enters |
| `Db.InsertPresent` | src/watson/db/PlayerEditSet.java:111 | adding an edit that compares equal to an element leaves the set unchanged |
| `Db.InsertAbsent` | src/watson/db/PlayerEditSet.java:111 | adding an edit that compares equal to no element grows the set by exactly that edit |
| `Db.LastBefore` | src/watson/db/PlayerEditSet.java:84-87 | `TreeSet.lower`: the last element strictly before the given edit, and none after it is before it |
| `Db.FirstAfter` | src/watson/db/PlayerEditSet.java:98-101 | `TreeSet.higher`: the first element strictly after the given edit, and none before it is after it |
| `Db.FirstAt` | src/watson/db/PlayerEditSet.java:62-73 | the first edit at (x, y, z) in iteration order, with no earlier edit there |
| `Db.FirstAtIsOldest` | src/watson/db/PlayerEditSet.java:49-73 | the first match of the walk is ordered before every other edit at those coordinates |
| `Db.ActionLetter` | src/watson/db/PlayerEditSet.java:301 | the action column is "c" exactly for a creation and "d" exactly for a destruction |
| `Db.SaveFields` | src/watson/db/PlayerEditSet.java:301-304 | nine fields, the third the player name and the fourth the action letter |
| `Db.SaveLine` | src/watson/db/PlayerEditSet.java:302-304 | a saved line ends in a newline, and when the player name has no pipe character, splitting the rest at the pipe gives back its nine fields |
| `Db.SaveFieldsText` | src/watson/db/PlayerEditSet.java:301-304 | the nine fields are date, time, player and action letter, then the numbers |
| `Db.SaveFieldsRead` | src/watson/db/PlayerEditSet.java:302-304 | the last five fields read back as type id, type data, x, y and z |
| `Db.DateFieldRead` | src/watson/db/PlayerEditSet.java:302 | the date field, split at '-', reads back through `parseInt` as year, month and day, for a year of four digits or more and a month and day that are not negative |
| `Db.TimeFieldRead` | src/watson/db/PlayerEditSet.java:302 | the time field, split at ':', reads back through `parseInt` as hour, minute and second when none is negative |
| `Db.SaveLineExample` | src/watson/db/PlayerEditSet.java:302-304 | alice's destruction of 256:0 at (1, 2, 3) on 2020-01-02 03:04:05 has the nine fields 2020-01-02, 03:04:05, alice, d, 256, 0, 1, 2 and 3, and its saved line is exactly those fields joined by pipe characters, followed by a newline |
| `Db.PlayerEditSet.constructor` | src/watson/db/PlayerEditSet.java:31-34 | a new store belongs to its player, holds no edits and is visible |
| `Db.PlayerEditSet.FindEdit` | src/watson/db/PlayerEditSet.java:62-73 | null exactly when no edit is at (x, y, z); otherwise an edit there that is ordered before every other edit there |
| `Db.PlayerEditSet.GetEditBefore` | src/watson/db/PlayerEditSet.java:84-87 | the greatest edit strictly before the given one, or null when there is none |
| `Db.PlayerEditSet.GetEditAfter` | src/watson/db/PlayerEditSet.java:98-101 | the least edit strictly after the given one, or null when there is none |
| `Db.PlayerEditSet.AddBlockEdit` | src/watson/db/PlayerEditSet.java:109-115 | the edit is inserted in order (added once if new, ignored if an equal one is there) and points back at this store |
| `Db.PlayerEditSet.GetBlockEditCount` | src/watson/db/PlayerEditSet.java:123-126 | the number of edits in the set |
| `Db.PlayerEditSet.SetVisible` | src/watson/db/PlayerEditSet.java:135-138 | the visibility becomes the value given |
| `Db.PlayerEditSet.IsVisible` | src/watson/db/PlayerEditSet.java:148-151 | the last visibility set, true for a new store |
| `Db.PlayerEditSet.Save` | src/watson/db/PlayerEditSet.java:288-308 | one saved line per edit, oldest first, and the count returned equals the number of edits |
| `Numbers.Decimal` | src/watson/db/PlayerEditSet.java:302 | `%d`: at least one character, a sign and digits only, starting with a minus exactly for a negative number |
| `Numbers.ZeroPad2` | src/watson/db/PlayerEditSet.java:302 | `%02d`: the decimal text, left-padded with zeros to two characters when shorter |
| `Numbers.SpacePad4` | src/watson/db/PlayerEditSet.java:302 | `%4d`: the decimal text, left-padded with spaces to four characters when shorter |
| `RegionInfo.RunLength` | src/watson/analysis/RegionInfoAnalysis.java:84 | the longest run of `[a-zA-Z0-9_-]` at the start of the text |
| `RegionInfo.RegionNames` | src/watson/analysis/RegionInfoAnalysis.java:55-60 | the successive matches of `[a-zA-Z0-9_-]+`, each a non-empty run of those characters |
| `RegionInfo.RegionNamesCover` | src/watson/analysis/RegionInfoAnalysis.java:55-60 | the matches, joined, are all the region characters of the list in order: nothing dropped, duplicated or reordered |
| `RegionInfo.GapsInterleave` | src/watson/analysis/RegionInfoAnalysis.java:55-60 | any text is the matches of `find()` interleaved with the text around them: nothing is lost |
| `RegionInfo.RegionNamesSeparated` | src/watson/analysis/RegionInfoAnalysis.java:55-60 | the matches are maximal: the text around them has no region character, and two successive matches have at least one character between them |
| `RegionInfo.RegionNamesOfGaps` | src/watson/analysis/RegionInfoAnalysis.java:55-60 | conversely, names set apart by any such text (", ", ",", " ,", mixed) are found again, in order |
| `RegionInfo.RegionNamesOfListing` | src/watson/analysis/RegionInfoAnalysis.java:80-84 | a list of names joined by a separator such as ", " yields exactly those names, in order, with repeats kept |
| `RegionInfo.Commands` | src/watson/analysis/RegionInfoAnalysis.java:58 | one "/region info <name>" per name, in order |
| `RegionInfo.RegionInfoAnalysis.constructor` | src/watson/analysis/RegionInfoAnalysis.java:78 | the last command time starts at 0 and nothing is sent |
| `RegionInfo.RegionInfoAnalysis.OnMatchedChat` | src/watson/analysis/RegionInfoAnalysis.java:29-36 | the region line is always echoed and handled by `wgRegions` |
| `RegionInfo.RegionInfoAnalysis.WgRegions` | src/watson/analysis/RegionInfoAnalysis.java:45-72 | within the timeout nothing is sent and the time is kept; past it one command per name is sent and the time becomes now plus one chat delay per name after the first |
| `Scenarios.PageThenResults` | src/watson/analysis/LbCoordsAnalysis.java:362-411 | a page line within the maximum followed by any number of result lines sends exactly one request, for the next page |
| `Scenarios.OverCeilingNeverPages` | src/watson/analysis/LbCoordsAnalysis.java:368-376 | after a page count over the maximum, no result lines of any kind send a request |
| `Scenarios.HeaderClearsStalePages` | src/watson/analysis/LbCoordsAnalysis.java:380-392 | a header between a page line and a result line stops the stale page numbers from sending a request |
| `Scenarios.ReplacementStoresOldBlock` | src/watson/analysis/LbCoordsAnalysis.java:303-312 | a replacement line queues exactly one edit, the destruction of the old block |
| `Scenarios.OldestMatchWins` | src/watson/db/PlayerEditSet.java:49-73 | two edits at one block added newest first: `findEdit` returns the older |
| `Scenarios.SameTimeBothKept` | src/watson/db/PlayerEditSet.java:109-126 | two different edits are both kept, even at the same time |
| `Scenarios.RegionBurst` | src/watson/analysis/RegionInfoAnalysis.java:45-72 | three names at t0 send three commands and set the time to t0 plus two chat delays; a second list is sent in full or dropped in full |

## Findings

| source | as written | input that shows it | evidently intended | confidence | as-written member | corrected member |
|---|---|---|---|---|---|---|
| src/watson/analysis/LbCoordsAnalysis.java:425-431 | the squared distance is summed in 32-bit `int`, so the products wrap before the comparison with 16 | last result at (0, 0, 0), next at (65536, 0, 0): 65536 * 65536 wraps to 0, so the colour does not change | the colour changes when the true squared distance exceeds 16 | not executed; the wrap follows from Java's int multiplication | `LbCoords.WrappedDistanceMissesFarResult` | `LbCoords.NextColourIndex` |

The rest of the model uses the exact distance, `SquaredDistance`.
`WrappedDistanceAgreesNearby` shows that both give the same result within
26754 blocks on each axis.

## Left out

- The patterns of `LogBlockPatterns` and `MiscPatterns` are not part of this model. Handlers receive the groups already captured.
- A group that did not take part in a match (Java `null`) is not representable. Every group is a string.
- Re-echoing a result line (`String.format`, `Chat.localChat`, `ChatComponents`) is display output. The reformat and recolour settings only choose how a line is shown. The model keeps the colour code and the colour state, not the text shown.
- `Log.exception` and other logging are left out.
- `TimeStamp.parseYMD`, `TimeStamp.toMillis`, the `BlockTypeRegistry` lookups and `Calendar` are not part of this model. They are parameters. This includes the rule that an unknown kill name maps to the player model.
- `BlockEditComparator` is not part of this model. The store takes any strict total order on an edit's content. That it compares times first is an assumption of `OrderedByTime` and the store scenarios only.
- `synchronized` and the `SyncTaskQueue` hand-off are left out: the store is modelled sequentially, and queuing a task is an append.
- `drawOutlines`, `drawVectors`, `BlockModel`, `PlantBlockModel`, `WatsonCommand` and `HighlightCommand` are rendering and command-line code, outside this model.
- `getPlayer` is the constant field `player`.
- Numbers.ParseInt: accepts ASCII digits only. Java's `Character.digit` also accepts other Unicode decimal digits.
- RegionInfo.RegionInfoAnalysis.WgRegions: does not model 64-bit `long` overflow of `now - lastCommandTime` or of the new time. The timeouts are given in whole milliseconds, not as seconds in a `double`.
- Db.PlayerEditSet.Save: the writer is the returned sequence of lines. `PrintWriter` errors are not modelled, and the calendar decomposition is a parameter. `writer.format` is given no locale, so it formats in the JVM's default locale; the model assumes a locale that writes ASCII digits (the "/lb page" request, by contrast, is formatted with `Locale.US`).
- LbCoords.LbCoordsAnalysis.LbCoord, LbCoords.LbCoordsAnalysis.LbCoordKills and LbCoords.LbCoordsAnalysis.LbCoordReplaced: an exception thrown after the task is queued (by the display code) is not modelled, because the display code is left out.
- LbCoords.LbCoordsAnalysis.GetChatColourChar: compares the exact squared distance with 16, not the 32-bit wrapped one the code computes (see Findings), so it can depart from the code only for a result more than 26754 blocks from the last one on some axis (`WrappedDistanceAgreesNearby`).
