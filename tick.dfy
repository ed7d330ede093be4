/**
 * What one firing of the server-tick handler computes, as functions of the
 * state before it: the promotions it emits and the upgrade ledger it leaves.
 */
module Tick {
  import opened Wrappers
  import opened Ranks
  import opened Playtime

  /** The promotion command issued to the permission system for one player. */
  datatype Promotion = Promotion(player: string, rank: string)

  /**
   * The console command grantRank builds for a promotion and hands to
   * runConsoleCommand: the player's name after "lp user ", the rank's name last.
   */
  function CommandText(e: Promotion): (r: string)
    ensures |r| == 8 + |e.player| + 12 + |e.rank|
    ensures r[..8] == "lp user " && r[8..8 + |e.player|] == e.player
    ensures r[8 + |e.player|..8 + |e.player| + 12] == " parent set "
    ensures r[|r| - |e.rank|..] == e.rank
  {
    var r := "lp user " + e.player + " parent set " + e.rank;
    assert r[8..8 + |e.player|] == e.player;
    assert r[8 + |e.player|..8 + |e.player| + 12] == " parent set ";
    r
  }

  /** The length of the run of non-space characters a string starts with. */
  function SpaceFreeRun(s: string): (n: nat)
    ensures n <= |s|
  {
    if s == [] || s[0] == ' ' then 0 else 1 + SpaceFreeRun(s[1..])
  }

  /** A name without spaces followed by a text that starts with a space: the run ends where the name does. */
  lemma {:induction false} SpaceFreeRunOfConcat(name: string, rest: string)
    requires ' ' !in name && rest != [] && rest[0] == ' '
    ensures SpaceFreeRun(name + rest) == |name|
  {
    if name != [] {
      assert (name + rest)[1..] == name[1..] + rest;
      assert ' ' !in name[1..] by {
        forall c | c in name[1..] ensures c in name { }
      }
      SpaceFreeRunOfConcat(name[1..], rest);
    }
  }

  /**
   * For player names without spaces (as Minecraft names are), the command
   * text determines the promotion, so a log of promotions and a log of the
   * dispatched commands say the same thing.
   */
  lemma CommandTextInjective(a: Promotion, b: Promotion)
    requires ' ' !in a.player && ' ' !in b.player
    ensures CommandText(a) == CommandText(b) <==> a == b
  {
    if CommandText(a) == CommandText(b) {
      var r, r' := CommandText(a), CommandText(b);
      assert r == r';
      var tail := r[8..];
      assert tail == a.player + tail[|a.player|..];
      assert tail == b.player + tail[|b.player|..];
      assert r[8 + |a.player|..8 + |a.player| + 12][0] == ' ' == r[8 + |a.player|];
      assert r'[8 + |b.player|..8 + |b.player| + 12][0] == ' ' == r[8 + |b.player|];
      assert tail[|a.player|..][0] == ' ' && tail[|b.player|..][0] == ' ';
      SpaceFreeRunOfConcat(a.player, tail[|a.player|..]);
      SpaceFreeRunOfConcat(b.player, tail[|b.player|..]);
      assert |a.player| == |b.player|;
      assert a.player == b.player;
      assert |a.rank| == |b.rank|;
    }
  }

  /**
   * The rank grantRank awards player p during a tick, judged on the state
   * before the tick: the player's counter has just been raised by the save
   * interval, and getCurrentRank reads that same raised value from the map.
   */
  function TickGrant(ranks: seq<RankConfig>, excluded: seq<string>, p: Player, before: map<Uuid, nat>,
                     ledger: map<Uuid, set<string>>): (r: Option<nat>)
    ensures r.Some? ==> r.value < |ranks|
  {
    var t := Get(before, p.id) + SaveIntervalSeconds;
    Decision(ranks, excluded, p, t, t, Granted(ledger, p.id))
  }

  /** The names a grant decision adds to the player's ledger. */
  function GrantedNames(ranks: seq<RankConfig>, d: Option<nat>): set<string>
    requires d.Some? ==> d.value < |ranks|
  {
    match d
    case None => {}
    case Some(k) => {ranks[k].name}
  }

  /** The promotions a tick emits, one list entry per promoted player, in player-list order. */
  function TickEvents(ranks: seq<RankConfig>, excluded: seq<string>, online: seq<Player>, before: map<Uuid, nat>,
                      ledger: map<Uuid, set<string>>): (r: seq<Promotion>)
    ensures |r| <= |online|
    decreases |online|
  {
    if online == [] then []
    else
      var p := online[|online| - 1];
      var earlier := TickEvents(ranks, excluded, online[..|online| - 1], before, ledger);
      match TickGrant(ranks, excluded, p, before, ledger)
      case None => earlier
      case Some(k) => earlier + [Promotion(p.name, ranks[k].name)]
  }

  /**
   * The ledger after a tick, built the way grantRank marks it player after
   * player: it keeps every entry and creates entries only for online players.
   */
  function TickLedger(ranks: seq<RankConfig>, excluded: seq<string>, online: seq<Player>, before: map<Uuid, nat>,
                      ledger: map<Uuid, set<string>>): (r: map<Uuid, set<string>>)
    ensures ledger.Keys <= r.Keys <= ledger.Keys + IdsOf(online)
    decreases |online|
  {
    if online == [] then ledger
    else
      var p := online[|online| - 1];
      var earlier := TickLedger(ranks, excluded, online[..|online| - 1], before, ledger);
      match TickGrant(ranks, excluded, p, before, ledger)
      case None => earlier
      case Some(k) => Mark(earlier, p.id, ranks[k].name)
  }

  /** Marking during a tick affects only the online players' sets. */
  lemma {:induction false} TickLedgerOffline(ranks: seq<RankConfig>, excluded: seq<string>, online: seq<Player>,
                                             before: map<Uuid, nat>, ledger: map<Uuid, set<string>>, id: Uuid)
    requires id !in IdsOf(online)
    ensures Granted(TickLedger(ranks, excluded, online, before, ledger), id) == Granted(ledger, id)
    decreases |online|
  {
    if online != [] {
      var rest := online[..|online| - 1];
      assert IdsOf(rest) <= IdsOf(online) by {
        forall q | q in rest ensures q in online { }
      }
      assert online[|online| - 1] in online;
      TickLedgerOffline(ranks, excluded, rest, before, ledger, id);
    }
  }

  /** Ledger sets only grow during a tick. */
  lemma {:induction false} TickLedgerGrows(ranks: seq<RankConfig>, excluded: seq<string>, online: seq<Player>,
                                           before: map<Uuid, nat>, ledger: map<Uuid, set<string>>, id: Uuid)
    ensures Granted(ledger, id) <= Granted(TickLedger(ranks, excluded, online, before, ledger), id)
    decreases |online|
  {
    if online != [] {
      TickLedgerGrows(ranks, excluded, online[..|online| - 1], before, ledger, id);
    }
  }

  /** The prefix of a duplicate-free player list extends its UUIDs by one new UUID per player. */
  lemma IdsOfPrefix(online: seq<Player>, i: nat)
    requires DistinctIds(online) && i < |online|
    ensures IdsOf(online[..i + 1]) == IdsOf(online[..i]) + {online[i].id}
    ensures online[i].id !in IdsOf(online[..i])
  {
    assert online[..i + 1] == online[..i] + [online[i]];
    forall q | q in online[..i]
      ensures q.id != online[i].id
    {
      var j :| 0 <= j < i && online[..i][j] == q;
      assert online[j] == q && DifferentIds(online, j, i);
    }
  }

  /** The tick functions on a prefix one player longer: that player's grant d is added last. */
  lemma TickStep(ranks: seq<RankConfig>, excluded: seq<string>, online: seq<Player>, before: map<Uuid, nat>,
                 ledger: map<Uuid, set<string>>, i: nat, d: Option<nat>)
    requires i < |online| && d == TickGrant(ranks, excluded, online[i], before, ledger)
    ensures d.None? ==>
              && TickLedger(ranks, excluded, online[..i + 1], before, ledger) ==
                 TickLedger(ranks, excluded, online[..i], before, ledger)
              && TickEvents(ranks, excluded, online[..i + 1], before, ledger) ==
                 TickEvents(ranks, excluded, online[..i], before, ledger)
    ensures d.Some? ==>
              && TickLedger(ranks, excluded, online[..i + 1], before, ledger) ==
                 Mark(TickLedger(ranks, excluded, online[..i], before, ledger), online[i].id, ranks[d.value].name)
              && TickEvents(ranks, excluded, online[..i + 1], before, ledger) ==
                 TickEvents(ranks, excluded, online[..i], before, ledger)
                   + [Promotion(online[i].name, ranks[d.value].name)]
  {
    assert online[..i + 1][..i] == online[..i];
  }

  /**
   * Before the i-th player of the tick is handled, that player's playtime and
   * ledger entries are still the ones the tick started from.
   */
  lemma TickUntouched(ranks: seq<RankConfig>, excluded: seq<string>, online: seq<Player>, before: map<Uuid, nat>,
                      ledger: map<Uuid, set<string>>, i: nat)
    requires DistinctIds(online) && i < |online|
    ensures Get(Accrue(before, IdsOf(online[..i])), online[i].id) == Get(before, online[i].id)
    ensures Granted(TickLedger(ranks, excluded, online[..i], before, ledger), online[i].id) ==
            Granted(ledger, online[i].id)
  {
    IdsOfPrefix(online, i);
    AccrueInsert(before, IdsOf(online[..i]), online[i].id);
    TickLedgerOffline(ranks, excluded, online[..i], before, ledger, online[i].id);
  }

  /** The decision grantRank takes for a player in a tick, written out with the raised counter. */
  lemma TickGrantUnfold(ranks: seq<RankConfig>, excluded: seq<string>, p: Player, before: map<Uuid, nat>,
                        ledger: map<Uuid, set<string>>, d: Option<nat>)
    requires var t := Get(before, p.id) + SaveIntervalSeconds;
             d == Decision(ranks, excluded, p, t, t, Granted(ledger, p.id))
    ensures d == TickGrant(ranks, excluded, p, before, ledger)
  {
  }

  /** Crediting the i-th player extends the accrual over the first i players to the first i + 1. */
  lemma TickAdvanceTimes(online: seq<Player>, before: map<Uuid, nat>, i: nat, times: map<Uuid, nat>)
    requires DistinctIds(online) && i < |online|
    requires times == Accrue(before, IdsOf(online[..i]))[online[i].id := Get(before, online[i].id) + SaveIntervalSeconds]
    ensures times == Accrue(before, IdsOf(online[..i + 1]))
  {
    IdsOfPrefix(online, i);
    AccrueInsert(before, IdsOf(online[..i]), online[i].id);
  }

  /**
   * Applying the i-th player's grant d to the ledger and the command log
   * extends the tick over the first i players to the first i + 1.
   */
  lemma TickAdvance(ranks: seq<RankConfig>, excluded: seq<string>, online: seq<Player>, before: map<Uuid, nat>,
                    ledger: map<Uuid, set<string>>, log: seq<Promotion>, i: nat, d: Option<nat>,
                    marks: map<Uuid, set<string>>, sent: seq<Promotion>)
    requires i < |online|
    requires d == TickGrant(ranks, excluded, online[i], before, ledger)
    requires var l := TickLedger(ranks, excluded, online[..i], before, ledger);
             marks == (if d.Some? then Mark(l, online[i].id, ranks[d.value].name) else l)
    requires var e := log + TickEvents(ranks, excluded, online[..i], before, ledger);
             sent == (if d.Some? then e + [Promotion(online[i].name, ranks[d.value].name)] else e)
    ensures marks == TickLedger(ranks, excluded, online[..i + 1], before, ledger)
    ensures sent == log + TickEvents(ranks, excluded, online[..i + 1], before, ledger)
  {
    TickStep(ranks, excluded, online, before, ledger, i, d);
  }

  /**
   * One round of the tick's forEach, for the ledger and the command log: if
   * the state after the first i players is changed by applying the decision
   * d that grantRank takes for player i, the result is the state after the
   * first i + 1 players.
   */
  lemma TickRound(ranks: seq<RankConfig>, excluded: seq<string>, online: seq<Player>, before: map<Uuid, nat>,
                  ledger: map<Uuid, set<string>>, log: seq<Promotion>, i: nat, d: Option<nat>,
                  marks: map<Uuid, set<string>>, sent: seq<Promotion>)
    requires i < |online|
    requires var t := Get(before, online[i].id) + SaveIntervalSeconds;
             d == Decision(ranks, excluded, online[i], t, t, Granted(ledger, online[i].id))
    requires var l := TickLedger(ranks, excluded, online[..i], before, ledger);
             d.None? ==> marks == l
    requires var l := TickLedger(ranks, excluded, online[..i], before, ledger);
             d.Some? ==> marks == Mark(l, online[i].id, ranks[d.value].name)
    requires var e := log + TickEvents(ranks, excluded, online[..i], before, ledger);
             d.None? ==> sent == e
    requires var e := log + TickEvents(ranks, excluded, online[..i], before, ledger);
             d.Some? ==> sent == e + [Promotion(online[i].name, ranks[d.value].name)]
    ensures marks == TickLedger(ranks, excluded, online[..i + 1], before, ledger)
    ensures sent == log + TickEvents(ranks, excluded, online[..i + 1], before, ledger)
  {
    TickGrantUnfold(ranks, excluded, online[i], before, ledger, d);
    TickAdvance(ranks, excluded, online, before, ledger, log, i, d, marks, sent);
  }

  /**
   * After a tick, an online player's ledger set is the set before the tick
   * plus the rank that player was granted, if any.
   */
  lemma {:induction false} TickLedgerOnline(ranks: seq<RankConfig>, excluded: seq<string>, online: seq<Player>,
                                            before: map<Uuid, nat>, ledger: map<Uuid, set<string>>, j: nat)
    requires DistinctIds(online) && j < |online|
    ensures Granted(TickLedger(ranks, excluded, online, before, ledger), online[j].id) ==
            Granted(ledger, online[j].id) + GrantedNames(ranks, TickGrant(ranks, excluded, online[j], before, ledger))
    decreases |online|
  {
    var n := |online| - 1;
    var rest := online[..n];
    assert DistinctIds(rest) by {
      forall a, b | 0 <= a < b < |rest|
        ensures DifferentIds(rest, a, b)
      {
        assert DifferentIds(online, a, b);
      }
    }
    IdsOfPrefix(online, n);
    if j == n {
      TickLedgerOffline(ranks, excluded, rest, before, ledger, online[n].id);
    } else {
      assert rest[j] == online[j];
      TickLedgerOnline(ranks, excluded, rest, before, ledger, j);
    }
  }

  /**
   * Every promotion a tick emits is for an online player and names a rank
   * that was not in that player's ledger before the tick.
   */
  lemma {:induction false} TickEventsAreNew(ranks: seq<RankConfig>, excluded: seq<string>, online: seq<Player>,
                                            before: map<Uuid, nat>, ledger: map<Uuid, set<string>>)
    ensures forall e :: e in TickEvents(ranks, excluded, online, before, ledger) ==>
              exists p :: p in online && e.player == p.name && e.rank !in Granted(ledger, p.id)
    decreases |online|
  {
    if online != [] {
      var p := online[|online| - 1];
      var rest := online[..|online| - 1];
      TickEventsAreNew(ranks, excluded, rest, before, ledger);
      assert forall q :: q in rest ==> q in online;
      var t := Get(before, p.id) + SaveIntervalSeconds;
      NeverRegrants(ranks, excluded, p, t, t, Granted(ledger, p.id));
      assert p in online;
    }
  }

  /** No two players of the list share a name (true of the server's player list). */
  predicate DistinctNames(players: seq<Player>)
  {
    forall i, j :: 0 <= i < j < |players| ==> players[i].name != players[j].name
  }

  /** The promotion grantRank issues to p during a tick: one command, or none. */
  function PlayerEvents(ranks: seq<RankConfig>, excluded: seq<string>, p: Player, before: map<Uuid, nat>,
                        ledger: map<Uuid, set<string>>): seq<Promotion>
  {
    match TickGrant(ranks, excluded, p, before, ledger)
    case None => []
    case Some(k) => [Promotion(p.name, ranks[k].name)]
  }

  /** A tick's promotions are those of all players but the last, then the last player's own. */
  lemma TickEventsLast(ranks: seq<RankConfig>, excluded: seq<string>, online: seq<Player>, before: map<Uuid, nat>,
                       ledger: map<Uuid, set<string>>)
    requires online != []
    ensures TickEvents(ranks, excluded, online, before, ledger) ==
            TickEvents(ranks, excluded, online[..|online| - 1], before, ledger)
              + PlayerEvents(ranks, excluded, online[|online| - 1], before, ledger)
  {
  }

  /** The events of a list that are addressed to the player called `name`, in order. */
  function EventsFor(events: seq<Promotion>, name: string): seq<Promotion>
    decreases |events|
  {
    if events == [] then []
    else
      var earlier := EventsFor(events[..|events| - 1], name);
      if events[|events| - 1].player == name then earlier + [events[|events| - 1]] else earlier
  }

  lemma {:induction false} EventsForAppend(a: seq<Promotion>, b: seq<Promotion>, name: string)
    ensures EventsFor(a + b, name) == EventsFor(a, name) + EventsFor(b, name)
    decreases |b|
  {
    if b == [] {
      assert a + b == a;
    } else {
      var b' := b[..|b| - 1];
      assert (a + b)[..|a + b| - 1] == a + b';
      EventsForAppend(a, b', name);
    }
  }

  /** A tick addresses no promotion to a name that no online player carries. */
  lemma {:induction false} EventsForAbsent(ranks: seq<RankConfig>, excluded: seq<string>, online: seq<Player>,
                                           before: map<Uuid, nat>, ledger: map<Uuid, set<string>>, name: string)
    requires forall q :: q in online ==> q.name != name
    ensures EventsFor(TickEvents(ranks, excluded, online, before, ledger), name) == []
    decreases |online|
  {
    if online != [] {
      var p := online[|online| - 1];
      var rest := online[..|online| - 1];
      assert forall q :: q in rest ==> q in online;
      EventsForAbsent(ranks, excluded, rest, before, ledger, name);
      assert p in online;
      TickEventsLast(ranks, excluded, online, before, ledger);
      EventsForAppend(TickEvents(ranks, excluded, rest, before, ledger),
                      PlayerEvents(ranks, excluded, p, before, ledger), name);
    }
  }

  /** With distinct names, the promotions addressed to the last player are that player's own. */
  lemma TickEventsForLast(ranks: seq<RankConfig>, excluded: seq<string>, online: seq<Player>,
                          before: map<Uuid, nat>, ledger: map<Uuid, set<string>>)
    requires DistinctNames(online) && online != []
    ensures var p := online[|online| - 1];
            EventsFor(TickEvents(ranks, excluded, online, before, ledger), p.name) ==
            PlayerEvents(ranks, excluded, p, before, ledger)
  {
    var n := |online| - 1;
    var p := online[n];
    var rest := online[..n];
    forall q | q in rest
      ensures q.name != p.name
    {
      var i :| 0 <= i < n && rest[i] == q;
      assert online[i] == q;
    }
    EventsForAbsent(ranks, excluded, rest, before, ledger, p.name);
    TickEventsLast(ranks, excluded, online, before, ledger);
    EventsForAppend(TickEvents(ranks, excluded, rest, before, ledger),
                    PlayerEvents(ranks, excluded, p, before, ledger), p.name);
  }

  /**
   * The promotions of a tick addressed to online player j are exactly that
   * player's own grant (PlayerEvents): one command for rank k when grantRank
   * decides k, none when it decides nothing.
   */
  lemma {:induction false} TickEventsForPlayer(ranks: seq<RankConfig>, excluded: seq<string>, online: seq<Player>,
                                               before: map<Uuid, nat>, ledger: map<Uuid, set<string>>, j: nat)
    requires DistinctNames(online) && j < |online|
    ensures EventsFor(TickEvents(ranks, excluded, online, before, ledger), online[j].name) ==
            PlayerEvents(ranks, excluded, online[j], before, ledger)
    decreases |online|
  {
    var n := |online| - 1;
    if j == n {
      TickEventsForLast(ranks, excluded, online, before, ledger);
    } else {
      var p := online[n];
      var rest := online[..n];
      assert DistinctNames(rest) by {
        forall a, b | 0 <= a < b < |rest|
          ensures rest[a].name != rest[b].name
        {
          assert rest[a] == online[a] && rest[b] == online[b];
        }
      }
      assert rest[j] == online[j];
      assert online[j].name != p.name;
      TickEventsForPlayer(ranks, excluded, rest, before, ledger, j);
      TickEventsLast(ranks, excluded, online, before, ledger);
      EventsForAppend(TickEvents(ranks, excluded, rest, before, ledger),
                      PlayerEvents(ranks, excluded, p, before, ledger), online[j].name);
    }
  }
}
