/**
 * The plugin object: its playtime map, save clock, upgrade ledger and rank
 * list, the server-tick handler that accrues playtime and promotes players,
 * and the operator and player commands.
 */
module Plugin {
  import opened Wrappers
  import opened Text
  import opened Ranks
  import opened Playtime
  import opened Tick

  class TimedRankup {
    /** playerPlaytimes: accumulated seconds per player UUID. */
    var playtimes: map<Uuid, nat>
    /** lastSaveTime, in seconds since the epoch. */
    var lastSaveTime: int
    /** playersAlreadyUpgraded: the ranks granted to each player in this process. */
    var ledger: map<Uuid, set<string>>
    /** rankConfigs, in configured order. */
    var ranks: seq<RankConfig>
    /** exclusions.excludedGroups; a null exclusions object or list is the empty list. */
    const exclusions: seq<string>
    /** The promotion commands dispatched so far, oldest first. */
    var commands: seq<Promotion>
    /** The lines of playtime.txt as last written. */
    var playtimeFile: seq<string>
    /** The order in which the last save visited the map's entries. */
    ghost var fileOrder: seq<Uuid>

    /** The state after onInitialize has loaded the rank list and the exclusions. */
    constructor (ranks: seq<RankConfig>, exclusions: seq<string>)
      ensures this.ranks == ranks && this.exclusions == exclusions
      ensures playtimes == map[] && ledger == map[] && lastSaveTime == 0
      ensures commands == [] && playtimeFile == [] && fileOrder == []
    {
      this.ranks := ranks;
      this.exclusions := exclusions;
      playtimes := map[];
      ledger := map[];
      lastSaveTime := 0;
      commands := [];
      playtimeFile := [];
      fileOrder := [];
    }

    /** hasPlayerAlreadyUpgraded. */
    predicate HasPlayerAlreadyUpgraded(id: Uuid, rank: string)
      reads this
      ensures HasPlayerAlreadyUpgraded(id, rank) <==> id in ledger && rank in ledger[id]
    {
      rank in Granted(ledger, id)
    }

    /** markPlayerAsUpgraded: add the rank to the player's set, creating the set if absent. */
    method MarkPlayerAsUpgraded(id: Uuid, rank: string)
      modifies this`ledger
      ensures ledger == Mark(old(ledger), id, rank)
      ensures HasPlayerAlreadyUpgraded(id, rank)
    {
      ledger := Mark(ledger, id, rank);
    }

    /**
     * runConsoleCommand: the dispatcher receives `command`, the text of the
     * promotion e, and the log records e. A syntax error is caught and logged
     * inside, so the caller goes on as if it succeeded.
     */
    method RunConsoleCommand(command: string, e: Promotion)
      requires command == CommandText(e)
      modifies this`commands
      ensures commands == old(commands) + [e]
    {
      commands := commands + [e];
    }

    /**
     * grantRank(player, playtime): promote the player by at most one rank.
     * The ghost result is the decision taken, the index of the granted rank.
     */
    method GrantRank(player: Player, playtime: nat) returns (ghost decision: Option<nat>)
      modifies this`playtimes, this`ledger, this`commands
      ensures decision == Decision(ranks, exclusions, player, playtime, Get(old(playtimes), player.id),
                                   Granted(old(ledger), player.id))
      ensures decision.None? ==> playtimes == old(playtimes) && ledger == old(ledger) && commands == old(commands)
      ensures decision.Some? ==>
                && commands == old(commands) + [Promotion(player.name, ranks[decision.value].name)]
                && ledger == Mark(old(ledger), player.id, ranks[decision.value].name)
                && playtimes == old(playtimes)[player.id := playtime]
    {
      ghost var stored := Get(playtimes, player.id);
      ghost var granted := Granted(ledger, player.id);
      decision := Decision(ranks, exclusions, player, playtime, stored, granted);
      if IsExcluded(exclusions, player.groups) {
        assert decision.None?;
        return;
      }
      var currentRank := CurrentRank(player.groups, ranks, Get(playtimes, player.id));
      var maxRank := MaxRank(ranks);
      if currentRank.None? {
        assert decision.None?;
        return;
      }
      var cur := currentRank.value;
      if maxRank.Some? && EqualsIgnoreCase(cur, maxRank.value) {
        assert decision.None?;
        return;
      }
      var currentRankIndex := IndexOfRankIgnoringCase(cur);
      if currentRankIndex == -1 {
        assert decision.None?;
        return;
      }
      assert decision == FirstFrom(ranks, Grantable(playtime, granted), currentRankIndex + 1);
      var i := currentRankIndex + 1;
      while i < |ranks|
        invariant currentRankIndex + 1 <= i <= |ranks|
        invariant forall j :: currentRankIndex + 1 <= j < i ==> !Meets(ranks[j], Grantable(playtime, granted))
        invariant playtimes == old(playtimes) && ledger == old(ledger) && commands == old(commands)
      {
        if playtime >= ranks[i].threshold && !HasPlayerAlreadyUpgraded(player.id, ranks[i].name) {
          assert Meets(ranks[i], Grantable(playtime, granted));
          assert decision == Some(i);
          var command := "lp user " + player.name + " parent set " + ranks[i].name;
          RunConsoleCommand(command, Promotion(player.name, ranks[i].name));
          playtimes := playtimes[player.id := playtime];
          MarkPlayerAsUpgraded(player.id, ranks[i].name);
          return;
        }
        i := i + 1;
      }
      assert decision.None?;
    }

    /**
     * The first loop of grantRank: the position of the first rank whose name
     * equals `name` ignoring case, or -1 when there is none.
     */
    method IndexOfRankIgnoringCase(name: string) returns (index: int)
      ensures match FirstFrom(ranks, NamedIgnoringCase(name), 0)
              case None => index == -1
              case Some(k) => index == k
    {
      index := -1;
      var i := 0;
      while i < |ranks|
        invariant 0 <= i <= |ranks|
        invariant forall j :: 0 <= j < i ==> !Meets(ranks[j], NamedIgnoringCase(name))
      {
        if EqualsIgnoreCase(ranks[i].name, name) {
          assert Meets(ranks[i], NamedIgnoringCase(name));
          return i;
        }
        i := i + 1;
      }
    }

    /**
     * onServerTick. Once SAVE_INTERVAL_SECONDS have passed since the last
     * save, every online player is credited the interval and considered for a
     * promotion, the map is written out and the save clock is reset; on other
     * ticks nothing changes.
     */
    method OnServerTick(nowMillis: nat, online: seq<Player>)
      requires DistinctIds(online)
      modifies this`playtimes, this`ledger, this`commands, this`lastSaveTime, this`playtimeFile, this`fileOrder
      ensures var now := nowMillis / 1000;
              if now - old(lastSaveTime) >= SaveIntervalSeconds then
                && playtimes == Accrue(old(playtimes), IdsOf(online))
                && ledger == TickLedger(ranks, exclusions, online, old(playtimes), old(ledger))
                && commands == old(commands) + TickEvents(ranks, exclusions, online, old(playtimes), old(ledger))
                && IsEnumeration(fileOrder, playtimes.Keys)
                && playtimeFile == Lines(fileOrder, playtimes)
                && lastSaveTime == now
              else
                && playtimes == old(playtimes) && ledger == old(ledger) && commands == old(commands)
                && playtimeFile == old(playtimeFile) && fileOrder == old(fileOrder) && lastSaveTime == old(lastSaveTime)
    {
      var currentTime := nowMillis / 1000;
      if currentTime - lastSaveTime >= SaveIntervalSeconds {
        AccrueOnlinePlayers(online);
        SavePlaytimeToFile();
        lastSaveTime := currentTime;
      }
    }

    /** The forEach over the server's player list in onServerTick. */
    method AccrueOnlinePlayers(online: seq<Player>)
      requires DistinctIds(online)
      modifies this`playtimes, this`ledger, this`commands
      ensures playtimes == Accrue(old(playtimes), IdsOf(online))
      ensures ledger == TickLedger(ranks, exclusions, online, old(playtimes), old(ledger))
      ensures commands == old(commands) + TickEvents(ranks, exclusions, online, old(playtimes), old(ledger))
    {
      var i := 0;
      while i < |online|
        invariant 0 <= i <= |online|
        invariant playtimes == Accrue(old(playtimes), IdsOf(online[..i]))
        invariant ledger == TickLedger(ranks, exclusions, online[..i], old(playtimes), old(ledger))
        invariant commands == old(commands) + TickEvents(ranks, exclusions, online[..i], old(playtimes), old(ledger))
      {
        AccrueNext(online, i, old(playtimes), old(ledger), old(commands));
        i := i + 1;
      }
      assert online[..i] == online;
    }

    /**
     * One round of the forEach: the tick has handled the first i players of
     * `online`, starting from the playtimes `before`, the ledger `start` and
     * the command log `log`; handling player i extends it to the first i + 1.
     */
    method AccrueNext(online: seq<Player>, i: nat, ghost before: map<Uuid, nat>, ghost start: map<Uuid, set<string>>,
                      ghost log: seq<Promotion>)
      requires DistinctIds(online) && i < |online|
      requires playtimes == Accrue(before, IdsOf(online[..i]))
      requires ledger == TickLedger(ranks, exclusions, online[..i], before, start)
      requires commands == log + TickEvents(ranks, exclusions, online[..i], before, start)
      modifies this`playtimes, this`ledger, this`commands
      ensures playtimes == Accrue(before, IdsOf(online[..i + 1]))
      ensures ledger == TickLedger(ranks, exclusions, online[..i + 1], before, start)
      ensures commands == log + TickEvents(ranks, exclusions, online[..i + 1], before, start)
    {
      TickUntouched(ranks, exclusions, online, before, start, i);
      ghost var d := AccruePlayer(online[i], before, start);
      TickAdvanceTimes(online, before, i, playtimes);
      TickRound(ranks, exclusions, online, before, start, log, i, d, ledger, commands);
    }

    /**
     * The body of the per-player lambda of onServerTick: credit the save
     * interval to the player's counter, then hand the new value to grantRank.
     * `before` and `start` are the playtime map and the ledger as the tick
     * found them; this player's entries have not changed since.
     */
    method AccruePlayer(player: Player, ghost before: map<Uuid, nat>, ghost start: map<Uuid, set<string>>)
        returns (ghost d: Option<nat>)
      requires Get(playtimes, player.id) == Get(before, player.id)
      requires Granted(ledger, player.id) == Granted(start, player.id)
      modifies this`playtimes, this`ledger, this`commands
      ensures var t := Get(before, player.id) + SaveIntervalSeconds;
              d == Decision(ranks, exclusions, player, t, t, Granted(start, player.id))
      ensures playtimes == old(playtimes)[player.id := Get(before, player.id) + SaveIntervalSeconds]
      ensures d.None? ==> ledger == old(ledger) && commands == old(commands)
      ensures d.Some? ==>
                && ledger == Mark(old(ledger), player.id, ranks[d.value].name)
                && commands == old(commands) + [Promotion(player.name, ranks[d.value].name)]
    {
      var currentPlayerTime := Get(playtimes, player.id);
      playtimes := playtimes[player.id := currentPlayerTime + SaveIntervalSeconds];
      d := GrantRank(player, currentPlayerTime + SaveIntervalSeconds);
    }

    /** savePlaytimeToFile: rewrite the file with one "uuid,seconds" line per map entry. */
    method SavePlaytimeToFile()
      modifies this`playtimeFile, this`fileOrder
      ensures IsEnumeration(fileOrder, playtimes.Keys)
      ensures playtimeFile == Lines(fileOrder, playtimes)
    {
      var remaining := playtimes.Keys;
      var lines: seq<string> := [];
      ghost var order: seq<Uuid> := [];
      while remaining != {}
        invariant remaining <= playtimes.Keys
        invariant forall i :: 0 <= i < |order| ==> order[i] in playtimes
        invariant IsEnumeration(order, playtimes.Keys - remaining)
        invariant lines == Lines(order, playtimes)
        decreases |remaining|
      {
        var id :| id in remaining;
        lines := lines + [Line(id, playtimes[id])];
        order := order + [id];
        remaining := remaining - {id};
      }
      playtimeFile := lines;
      fileOrder := order;
    }

    /** addRank: append the rank; the reply code is 1. */
    method AddRank(name: string, playtime: Int32) returns (code: int)
      modifies this`ranks
      ensures ranks == old(ranks) + [RankConfig(name, playtime)]
      ensures code == 1
    {
      ranks := ranks + [RankConfig(name, playtime)];
      code := 1;
    }

    /** updateRank: rename and re-threshold the first rank named exactly oldName; 0 when there is none. */
    method UpdateRank(oldName: string, newName: string, playtime: Int32) returns (code: int)
      modifies this`ranks
      ensures match FirstFrom(old(ranks), NamedExactly(oldName), 0)
              case None => code == 0 && ranks == old(ranks)
              case Some(k) => code == 1 && ranks == old(ranks)[k := RankConfig(newName, playtime)]
    {
      var i := 0;
      while i < |ranks|
        invariant 0 <= i <= |ranks|
        invariant ranks == old(ranks)
        invariant forall j :: 0 <= j < i ==> !Meets(ranks[j], NamedExactly(oldName))
      {
        if ranks[i].name == oldName {
          assert Meets(ranks[i], NamedExactly(oldName));
          assert FirstFrom(ranks, NamedExactly(oldName), 0) == Some(i);
          ranks := ranks[i := RankConfig(newName, playtime)];
          return 1;
        }
        i := i + 1;
      }
      return 0;
    }

    /** removeRank: delete the first rank named exactly `name`; 0 when there is none. */
    method RemoveRank(name: string) returns (code: int)
      modifies this`ranks
      ensures match FirstFrom(old(ranks), NamedExactly(name), 0)
              case None => code == 0 && ranks == old(ranks)
              case Some(k) => code == 1 && ranks == RemoveAt(old(ranks), k)
    {
      var removed: Option<nat> := None;
      var i := 0;
      while i < |ranks|
        invariant 0 <= i <= |ranks|
        invariant removed.None?
        invariant forall j :: 0 <= j < i ==> !Meets(ranks[j], NamedExactly(name))
      {
        if ranks[i].name == name {
          assert Meets(ranks[i], NamedExactly(name));
          removed := Some(i);
          break;
        }
        i := i + 1;
      }
      if removed.Some? {
        assert FirstFrom(ranks, NamedExactly(name), 0) == removed;
        ranks := RemoveAt(ranks, removed.value);
        code := 1;
      } else {
        code := 0;
      }
    }

    /** listRanks: a header and one line per rank, or a single line when there are none; the code is 1. */
    method ListRanks() returns (code: int, lines: seq<string>)
      ensures code == 1
      ensures ranks == [] ==> lines == ["No ranks configured."]
      ensures ranks != [] ==> |lines| == |ranks| + 1 && lines[0] == "Ranks:"
      ensures ranks != [] ==> forall i :: 0 <= i < |ranks| ==> lines[i + 1] == RankLine(ranks[i])
    {
      if ranks != [] {
        lines := ["Ranks:"];
        for i := 0 to |ranks|
          invariant |lines| == i + 1 && lines[0] == "Ranks:"
          invariant forall j :: 0 <= j < i ==> lines[j + 1] == RankLine(ranks[j])
        {
          lines := lines + [RankLine(ranks[i])];
        }
      } else {
        lines := ["No ranks configured."];
      }
      code := 1;
    }

    /**
     * forceUpgrade: hands every online player to the empty one-argument
     * grantRank overload, so nothing changes; the code is 1, or 0 when the
     * command source has no server.
     */
    method ForceUpgrade(serverAvailable: bool) returns (code: int)
      ensures code == (if serverAvailable then 1 else 0)
    {
      code := if serverAvailable then 1 else 0;
    }

    /** viewOwnPlaytime: `caller` is the UUID of the player who ran the command, None for the console. */
    method ViewOwnPlaytime(caller: Option<Uuid>) returns (code: int, message: string)
      ensures caller.None? ==> code == 0 && message == "This command can only be executed by players."
      ensures caller.Some? ==> code == 1 && message == OwnPlaytimeMessage(Get(playtimes, caller.value))
    {
      if caller.Some? {
        code, message := 1, OwnPlaytimeMessage(Get(playtimes, caller.value));
      } else {
        code, message := 0, "This command can only be executed by players.";
      }
    }

    /**
     * viewPlayerPlaytime, as written: `found` is the user cache's answer for
     * the name, which is then used as the key into the UUID-keyed map.
     */
    method ViewPlayerPlaytime(playerName: string, found: Option<Profile>) returns (code: int, message: string)
      ensures found.None? ==> code == 0 && message == "Player not found: " + playerName
      ensures found.Some? ==> code == 1 && message == PlayerPlaytimeMessage(playerName, 0)
    {
      if found.Some? {
        var playtime := ReportedPlaytime(playtimes, found);
        code, message := 1, PlayerPlaytimeMessage(playerName, playtime);
      } else {
        code, message := 0, "Player not found: " + playerName;
      }
    }
  }
}
