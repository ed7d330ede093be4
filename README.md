# TimedRankup: playtime accrual and rank promotion

TimedRankup is a Minecraft server mod that counts how long each player has
been online and promotes players through a configured list of ranks by
issuing LuckPerms `parent set` commands. This project models its engine,
the class `TimedRankup`, and proves properties of that model:

- the server-tick handler, which credits every online player with the fixed
  save interval of 15 seconds once 15 seconds have passed since the last
  save, considers each player for a promotion, writes the playtime file and
  resets the save clock;
- `grantRank` and its helpers: the exclusion test, the player's current
  rank, the maximum rank, and the forward scan for the first rank that is
  reached and not yet in the per-player upgrade ledger;
- the ledger, `hasPlayerAlreadyUpgraded` and `markPlayerAsUpgraded`;
- the operator commands `addrank`, `updaterank`, `removerank`, `listranks`
  and `forceupgrade`, and the player commands `/playtime` and
  `/playtime <player>`;
- the `uuid,seconds` line format of `playtime.txt` and the duration text
  of `formatPlaytime`.

The model has these modules:

- `Wrappers` holds `Option`.
- `Text` holds Java's `equalsIgnoreCase` over the ASCII case maps and the
  decimal rendering of numbers.
- `Ranks` holds `RankConfig`, the searches over the rank list and the
  promotion decision as a function.
- `Playtime` holds accrual, the file lines and the duration text.
- `Tick` holds what one firing of the tick handler computes, as functions
  of the state before it.
- `Plugin` holds the class `TimedRankup`, whose fields are the playtime
  map, the save clock, the ledger, the rank list, the exclusion list, the
  log of dispatched promotion commands and the lines of the playtime file.
  Its methods update these fields the way the Java methods do.

The tick handler and `grantRank` are proved against the functions of
`Tick` and `Ranks`. The properties the mod promises are then proved as
lemmas about those functions:

- at most one promotion per call, and per player and tick exactly the
  promotion grantRank decides for that player;
- the granted rank is the first eligible one after the current rank, and a
  player with an eligible rank after the current one is promoted;
- a rank already in the ledger is never granted again;
- offline players are untouched;
- the file has one line per entry;
- a duration breakdown satisfies `h*3600 + m*60 + s == total`.

Inputs that come from outside the mod are parameters:

- the current time in milliseconds;
- the list of online players, each with its UUID, name and the inherited
  LuckPerms groups (`None` when LuckPerms has no such user);
- the configured rank and exclusion lists;
- whether a command source has a server or a player entity;
- the user-cache answer for a player name.

Each dispatched command is recorded as a `Promotion(player, rank)` event.
`runConsoleCommand` receives its text `CommandText`, and for player names
without spaces that text determines the event. `runConsoleCommand` catches syntax errors
itself, so `grantRank` proceeds as if the command succeeded.

Two behaviours of the code that a reader may not expect:

- When no inherited group names a rank, `getCurrentRank` returns the
  *first* rank in list order whose threshold the stored playtime reaches.
  It does not return the highest such rank
  (`Ranks.DefaultRanksCurrentRank`, `Ranks.DefaultRanksNewbie`).
- A dispatcher syntax error does not leave the ledger unmarked. The
  command counts as granted, and the rank is recorded.

## Model

| member | source | states |
|---|---|---|
| Text.EqualsIgnoreCase | src/main/java/net/nadar/timedrankup/TimedRankup.java:204 | two strings are equal ignoring case exactly when they have the same length and every pair of characters at the same position is equal up to case |
| Text.EqualsIgnoreCaseIffSameLower | src/main/java/net/nadar/timedrankup/TimedRankup.java:204 | two names are equal ignoring case exactly when their lower-case forms are equal |
| Text.EqualsIgnoreCaseIsEquivalence | src/main/java/net/nadar/timedrankup/TimedRankup.java:200-204 | the case-insensitive rank-name comparison is reflexive, symmetric and transitive |
| Text.NatString | src/main/java/net/nadar/timedrankup/TimedRankup.java:326 | a non-negative number is rendered as a non-empty run of decimal digits with no leading zero |
| Text.NatStringValue | src/main/java/net/nadar/timedrankup/TimedRankup.java:326 | reading back the rendered digits gives the number that was rendered |
| Text.NatStringInjective | src/main/java/net/nadar/timedrankup/TimedRankup.java:526 | distinct numbers render as distinct digit strings |
| Text.IntString | src/main/java/net/nadar/timedrankup/TimedRankup.java:463 | an `int` threshold is rendered with a leading minus exactly when it is negative, followed by the digits of its magnitude |
| Text.IntStringInjective | src/main/java/net/nadar/timedrankup/TimedRankup.java:463 | distinct thresholds render as distinct texts |
| Ranks.Granted | src/main/java/net/nadar/timedrankup/TimedRankup.java:240 | a rank is in a player's granted set exactly when the ledger has an entry for the player holding that rank; a player without an entry has the empty set |
| Ranks.Mark | src/main/java/net/nadar/timedrankup/TimedRankup.java:243-246 | marking adds the player's key if absent and the rank to that player's set; every other player's set is unchanged |
| Ranks.FirstFrom | src/main/java/net/nadar/timedrankup/TimedRankup.java:203-213 | the index found by an early-exit scan from a start position: it meets the test and nothing before it does, or nothing from the start on meets it |
| Ranks.MaxIndex | src/main/java/net/nadar/timedrankup/TimedRankup.java:249-261 | the index getMaxRank's loop ends on has the greatest threshold, and every earlier rank a strictly smaller one |
| Ranks.MaxRank | src/main/java/net/nadar/timedrankup/TimedRankup.java:249-261 | getMaxRank is null exactly for an empty list, and otherwise names the first rank with the greatest threshold |
| Ranks.FirstMaxIsUnique | src/main/java/net/nadar/timedrankup/TimedRankup.java:249-261 | only one index is the first with the greatest threshold, so getMaxRank's answer is determined |
| Ranks.FirstRankGroup | src/main/java/net/nadar/timedrankup/TimedRankup.java:277-284 | the first inherited group that names a configured rank ignoring case, or none |
| Ranks.CurrentRank | src/main/java/net/nadar/timedrankup/TimedRankup.java:263-294 | unknown user gives null; the first matching group wins in its own spelling; otherwise the first rank in list order that the stored playtime reaches, or null |
| Ranks.AnyExcluded | src/main/java/net/nadar/timedrankup/TimedRankup.java:546-553 | true exactly when some inherited group is literally in the exclusion list |
| Ranks.IsExcluded | src/main/java/net/nadar/timedrankup/TimedRankup.java:529-554 | excluded exactly when exclusions are configured, the user is known and one of its groups is excluded |
| Ranks.Decision | src/main/java/net/nadar/timedrankup/TimedRankup.java:183-236 | the rank grantRank grants, if any, is a valid index into the rank list |
| Ranks.NoPromotionCases | src/main/java/net/nadar/timedrankup/TimedRankup.java:186-210 | no promotion for an excluded player, a null current rank, a current rank equal to the max rank ignoring case, or a current rank not in the list |
| Ranks.PromotionIsFirstEligible | src/main/java/net/nadar/timedrankup/TimedRankup.java:198-220 | a granted rank lies after the current rank's position, is reached and not in the ledger, and every rank in between is unreached or already granted |
| Ranks.PromotionWhenEligible | src/main/java/net/nadar/timedrankup/TimedRankup.java:186-220 | when the player is not excluded, has a current rank that is not the max rank and is found in the list, and some rank j after it is reached and not in the ledger, a promotion is decided, to rank j or an earlier one |
| Ranks.NeverRegrants | src/main/java/net/nadar/timedrankup/TimedRankup.java:213 | a rank name already in the player's ledger is never granted |
| Ranks.SecondPassSkipsGrantedRank | src/main/java/net/nadar/timedrankup/TimedRankup.java:213-219 | deciding again after the granted rank was recorded never grants that rank name a second time |
| Ranks.DefaultRanksCurrentRank | src/main/java/net/nadar/timedrankup/TimedRankup.java:286-291 | with the default ranks and no groups: 0 seconds gives no rank, while 3600 and 21600 seconds both give "Newbie" |
| Ranks.DefaultRanksMaxRank | src/main/java/net/nadar/timedrankup/TimedRankup.java:108-112 | the maximum of the default ranks is "Veteran" |
| Ranks.DefaultRanksNewbie | src/main/java/net/nadar/timedrankup/TimedRankup.java:286-291 | with the default ranks and no groups, any playtime of at least an hour resolves to "Newbie", the first reached rank |
| Ranks.DefaultRanksPromotion | src/main/java/net/nadar/timedrankup/TimedRankup.java:108-112 | a "Newbie" at 10800 seconds is offered "Regular", one second short nothing |
| Ranks.DefaultRanksNoRegrant | src/main/java/net/nadar/timedrankup/TimedRankup.java:213 | with "Regular" in the ledger the same player is offered nothing |
| Ranks.RemoveAt | src/main/java/net/nadar/timedrankup/TimedRankup.java:443 | List.remove drops exactly the entry at k and keeps the others in order |
| Ranks.RemoveUndoesAdd | src/main/java/net/nadar/timedrankup/TimedRankup.java:399-443 | removing a freshly added new name finds the appended entry and gives back the original list |
| Ranks.UpdatedEntryFoundByNewName | src/main/java/net/nadar/timedrankup/TimedRankup.java:413-421 | after an update, the new name's first exact match is the updated entry unless an earlier entry already had that name |
| Ranks.RankLine | src/main/java/net/nadar/timedrankup/TimedRankup.java:463 | the listRanks line starts with "- " and the rank's name and ends with " seconds" |
| Ranks.RankLineShowsThreshold | src/main/java/net/nadar/timedrankup/TimedRankup.java:463 | for two ranks of the same name the lines are equal exactly when the thresholds are |
| Playtime.Accrue | src/main/java/net/nadar/timedrankup/TimedRankup.java:165-172 | online players gain 15 seconds counted from 0 when absent, their entries are created, and offline entries are kept |
| Playtime.AccrueTimesOnline | src/main/java/net/nadar/timedrankup/TimedRankup.java:163-172 | a player online for n saving ticks has gained exactly n times 15 seconds |
| Playtime.AccrueTimesOffline | src/main/java/net/nadar/timedrankup/TimedRankup.java:163-172 | a player offline throughout keeps the presence and the value of their entry |
| Playtime.Line | src/main/java/net/nadar/timedrankup/TimedRankup.java:326 | a line starts with the UUID and a comma, and the decimal digits after the comma read back to the seconds |
| Playtime.LineDecomposes | src/main/java/net/nadar/timedrankup/TimedRankup.java:326 | a line is the UUID, one comma, then the seconds in decimal, which read back to the stored value |
| Playtime.LineInjective | src/main/java/net/nadar/timedrankup/TimedRankup.java:326 | distinct entries give distinct lines |
| Playtime.Lines | src/main/java/net/nadar/timedrankup/TimedRankup.java:323-328 | one line per visited entry, in visiting order, each in the `uuid,seconds` form |
| Playtime.EnumerationSize | src/main/java/net/nadar/timedrankup/TimedRankup.java:323 | an entry-set iteration visits as many entries as the map has |
| Playtime.SavedLinesDescribeStore | src/main/java/net/nadar/timedrankup/TimedRankup.java:322-328 | the file has exactly one line per map entry, every entry's line is present, and no line repeats |
| Playtime.Breakdown | src/main/java/net/nadar/timedrankup/TimedRankup.java:522-525 | hours*3600 + minutes*60 + seconds is the total, with minutes and seconds below 60 |
| Playtime.BreakdownUnique | src/main/java/net/nadar/timedrankup/TimedRankup.java:522-525 | no other split has minutes and seconds below 60 |
| Playtime.DurationTextInjective | src/main/java/net/nadar/timedrankup/TimedRankup.java:526 | the "%d hours, %d minutes, %d seconds" text determines the three numbers |
| Playtime.FormatPlaytime | src/main/java/net/nadar/timedrankup/TimedRankup.java:522-527 | the text is "%d hours, %d minutes, %d seconds" filled, in ASCII digits, with the one split of the total that has minutes and seconds below 60 |
| Playtime.FormatPlaytimeInjective | src/main/java/net/nadar/timedrankup/TimedRankup.java:522-527 | distinct playtimes are shown as distinct texts |
| Playtime.ReportedPlaytimeIgnoresStore | src/main/java/net/nadar/timedrankup/TimedRankup.java:511-514 | as written, a player with 3600 seconds on record is reported with 0 |
| Playtime.ReportedPlaytimeIntended | src/main/java/net/nadar/timedrankup/TimedRankup.java:511-514 | the intended report is the seconds stored under the found profile's UUID, or 0 |
| Tick.CommandText | src/main/java/net/nadar/timedrankup/TimedRankup.java:215 | the command is "lp user ", the player's name, " parent set " and the rank's name |
| Tick.CommandTextInjective | src/main/java/net/nadar/timedrankup/TimedRankup.java:215 | for player names without spaces, two promotions give the same command text exactly when they are the same promotion |
| Tick.TickGrant | src/main/java/net/nadar/timedrankup/TimedRankup.java:167-171 | the rank granted to a player in a tick, if any, is a valid index |
| Tick.TickEvents | src/main/java/net/nadar/timedrankup/TimedRankup.java:165-172 | a tick emits at most as many promotions as there are online players |
| Tick.TickEventsForPlayer | src/main/java/net/nadar/timedrankup/TimedRankup.java:165-172 | with distinct player names, the promotions a tick addresses to online player j are exactly one for rank k when grantRank decides k for that player, and none when it decides nothing |
| Tick.TickLedger | src/main/java/net/nadar/timedrankup/TimedRankup.java:165-172 | the ledger after a tick keeps every entry it had and has new entries only for online players |
| Tick.TickLedgerOffline | src/main/java/net/nadar/timedrankup/TimedRankup.java:165-172 | a tick does not touch the ledger set of a player who is not online |
| Tick.TickLedgerGrows | src/main/java/net/nadar/timedrankup/TimedRankup.java:219 | ledger sets only grow during a tick |
| Tick.TickLedgerOnline | src/main/java/net/nadar/timedrankup/TimedRankup.java:165-172 | after a tick, an online player's ledger set is the old set plus the rank granted to that player, if any |
| Tick.TickEventsAreNew | src/main/java/net/nadar/timedrankup/TimedRankup.java:211-220 | every promotion of a tick is for an online player and names a rank not in that player's ledger before the tick |
| Plugin.TimedRankup.constructor | src/main/java/net/nadar/timedrankup/TimedRankup.java:156-157 | after loading, the store, the ledger and the command log are empty and the save clock is 0 |
| Plugin.TimedRankup.HasPlayerAlreadyUpgraded | src/main/java/net/nadar/timedrankup/TimedRankup.java:238-241 | true exactly when the ledger has an entry for the player and that entry holds the rank |
| Plugin.TimedRankup.MarkPlayerAsUpgraded | src/main/java/net/nadar/timedrankup/TimedRankup.java:243-246 | the ledger becomes `Mark` of the old ledger, and afterwards the player counts as already upgraded to the rank |
| Plugin.TimedRankup.RunConsoleCommand | src/main/java/net/nadar/timedrankup/TimedRankup.java:297-309 | the dispatcher is handed the command text of the promotion, and the promotion is appended to the command log |
| Plugin.TimedRankup.IndexOfRankIgnoringCase | src/main/java/net/nadar/timedrankup/TimedRankup.java:202-208 | the index of the first rank named like the current rank ignoring case, or -1 |
| Plugin.TimedRankup.GrantRank | src/main/java/net/nadar/timedrankup/TimedRankup.java:183-236 | with no decision nothing changes; with decision k, exactly one promotion for rank k is logged, the ledger is marked and the player's playtime is stored |
| Plugin.TimedRankup.OnServerTick | src/main/java/net/nadar/timedrankup/TimedRankup.java:159-180 | once 15 seconds have passed: accrual, tick ledger, tick promotions, a rewritten file for the new store and the clock reset; otherwise nothing changes |
| Plugin.TimedRankup.AccrueOnlinePlayers | src/main/java/net/nadar/timedrankup/TimedRankup.java:165-172 | the forEach leaves the accrued store, the tick ledger and the tick promotions appended to the log |
| Plugin.TimedRankup.AccrueNext | src/main/java/net/nadar/timedrankup/TimedRankup.java:165-172 | handling one more player extends the state after the first i players to the first i + 1 |
| Plugin.TimedRankup.AccruePlayer | src/main/java/net/nadar/timedrankup/TimedRankup.java:166-171 | the player's counter rises by 15, and the grant decided on the raised counter is logged and marked |
| Plugin.TimedRankup.SavePlaytimeToFile | src/main/java/net/nadar/timedrankup/TimedRankup.java:311-332 | the file is replaced by one line per map entry, in an order that visits every key once |
| Plugin.TimedRankup.AddRank | src/main/java/net/nadar/timedrankup/TimedRankup.java:399-411 | the rank is appended after the unchanged earlier entries; the code is 1 |
| Plugin.TimedRankup.UpdateRank | src/main/java/net/nadar/timedrankup/TimedRankup.java:413-431 | only the first exact match is replaced, and the code is 1; with no match the code is 0 and the list is unchanged |
| Plugin.TimedRankup.RemoveRank | src/main/java/net/nadar/timedrankup/TimedRankup.java:433-456 | only the first exact match is removed, and the code is 1; with no match the code is 0 and the list is unchanged |
| Plugin.TimedRankup.ListRanks | src/main/java/net/nadar/timedrankup/TimedRankup.java:458-474 | a header and one `- name - Playtime Threshold: n seconds` line per rank in order, or the single "none" line; the code is 1 |
| Plugin.TimedRankup.ForceUpgrade | src/main/java/net/nadar/timedrankup/TimedRankup.java:475-495 | no state changes; the code is 1 with a server and 0 without |
| Plugin.TimedRankup.ViewOwnPlaytime | src/main/java/net/nadar/timedrankup/TimedRankup.java:497-508 | a player is shown their stored seconds as a duration text with code 1; the console is refused with code 0 |
| Plugin.TimedRankup.ViewPlayerPlaytime | src/main/java/net/nadar/timedrankup/TimedRankup.java:510-520 | an unknown name gets "Player not found" with code 0; a known one is shown 0 seconds with code 1, as written |

## Left out

- Configuration I/O (`loadConfig`, `generateDefaultConfig`, `generateDefaultExclusionConfig`, `saveConfig`) is Gson and file I/O. The rank list and the exclusion list are constructor arguments. A `null` `exclusions` object or `excludedGroups` list (line 530) is the empty list. A missing `exclusions.json` needs no such case: the code writes the defaults `["Admins", "Moderators"]` and loads them (lines 88-89 and 135) before the list reaches the constructor.
- Command registration with Brigadier, the permission-level requirement, tab completion and argument parsing are host-library code. The commands are modelled from their handlers on.
- LuckPerms is modelled only by the groups it reports for a player, or `None` for an unknown user. The name-based user lookup is taken to give the player's own UUID, so `getCurrentRank` reads the stored playtime under that UUID.
- `String.equalsIgnoreCase` is modelled over the ASCII case maps only. Non-ASCII case folding is not modelled.
- Playtime counters are unbounded naturals. Java's 64-bit `long` overflow is not modelled, because it needs billions of years of playtime.
- `grantRank` catches exceptions other than syntax errors thrown by the command dispatcher, and then keeps scanning. That path is not modelled: every dispatch is taken to return normally.
- I/O failures are not modelled. These are a failed `mkdirs` or an `IOException` while writing `playtime.txt`. The file is always rewritten.
- The order of a `HashMap`'s entry set is unspecified. The save visits the keys in a nondeterministic order, recorded in a ghost field.
- Playtime.FormatPlaytime: assumes a default locale whose zero digit is '0'. `String.format` at line 526 writes `%d` with the default format locale's digits, so under a locale with other digits, such as Arabic-Indic, Java prints those digits where the model has ASCII ones. The `/playtime` replies are modelled under the same assumption. The concatenations at lines 326 and 463 do not depend on the locale.
- Line separators, logging, and the text of feedback messages other than the `listRanks` lines and the `/playtime` replies are not modelled.
- The shown code never reads `playtime.txt` back, so no parser or round trip through the file is modelled.
- `UserCache` and `GameProfileRepository` are foreign code. The cache's answer for a name is a parameter.
- `updateRank` assigns the fields of the matching `RankConfig` object in place. The model replaces that list element by a new value. This is the same thing unless one object appears twice in the list, which a list loaded from JSON never does.
- Plugin.TimedRankup.OnServerTick requires that the online players have distinct UUIDs, as the server's player list does. With a duplicate, the Java code would credit the same player twice in one tick.
- A `null` rank list is not modelled. The field stays `null` if the rank file cannot be read or has no `ranks`. The Java code then throws inside `grantRank` on the first saving tick with a player online who is not excluded. `isPlayerExcluded` does not read the rank list, so for an excluded player `grantRank` returns at line 187 first. When the rank file cannot be opened, `exclusions` stays `null` as well, since both readers share the try at lines 92-93, and then every player online triggers the throw. For a player who is not excluded, the throw happens in the first loop over the rank list that runs: `getCurrentRank`'s loops at lines 279 and 287, or `getMaxRank`'s at line 253 for a user LuckPerms does not know. The exception escapes the `forEach`, so `savePlaytimeToFile` and the `lastSaveTime` update do not run.
- `grantRank(player)` with one argument has an empty body. `forceUpgrade` therefore changes nothing, and only its reply code is modelled.
- Ranks.Decision: its own contract only bounds the index. What it decides is stated by Ranks.PromotionIsFirstEligible (which rank, when it grants), Ranks.PromotionWhenEligible (that it grants whenever a rank is eligible), Ranks.NoPromotionCases and Ranks.NeverRegrants.
- Tick.TickGrant and Tick.TickEvents: their own contracts state only bounds. Their content is stated by Tick.TickLedgerOnline, Tick.TickEventsForPlayer, Tick.TickEventsAreNew and the contract of Plugin.TimedRankup.OnServerTick.
- Tick.TickEventsForPlayer assumes distinct player names, as the server's player list has. With two online players of one name, their promotions could not be told apart by name.

## Findings

| source | as written | input that shows it | evidently intended | confidence | as-written member | corrected member |
|---|---|---|---|---|---|---|
| src/main/java/net/nadar/timedrankup/TimedRankup.java:511-514 | `playerPlaytimes.getOrDefault(playerId, 0L)` is called with the `Optional<GameProfile>` returned by `userCache.findByName`. That object never equals a `UUID` key, so the reply is always 0 seconds. | the name "Steve", whose profile has UUID "0b3c-steve" with 3600 seconds stored, is reported with 0 | look up `playerId.get().getId()`, the profile's UUID | not executed | Playtime.ReportedPlaytimeIgnoresStore | Playtime.ReportedPlaytimeIntended |
