/**
 * The configured rank list and the read-only searches the promotion engine
 * runs over it: the maximum rank, the player's current rank, the exclusion
 * test and the forward scan for the next rank to grant.
 */
module Ranks {
  import opened Wrappers
  import opened Text

  /** A Java `int`. */
  type Int32 = x: int | -0x8000_0000 <= x < 0x8000_0000

  /** One entry of the ordered rank list (the Java class RankConfig). */
  datatype RankConfig = RankConfig(name: string, threshold: Int32)

  /** The rank list written when no configuration file exists. */
  const DefaultRanks: seq<RankConfig> :=
    [RankConfig("Newbie", 3600), RankConfig("Regular", 10800), RankConfig("Veteran", 21600)]

  /** The per-player set of rank names already granted, for players without an entry the empty set. */
  function Granted(ledger: map<string, set<string>>, id: string): (r: set<string>)
    ensures forall rank :: rank in r <==> id in ledger && rank in ledger[id]
  {
    if id in ledger then ledger[id] else {}
  }

  /** markPlayerAsUpgraded: computeIfAbsent(id, new HashSet).add(rank). */
  function Mark(ledger: map<string, set<string>>, id: string, rank: string): (r: map<string, set<string>>)
    ensures r.Keys == ledger.Keys + {id}
    ensures Granted(r, id) == Granted(ledger, id) + {rank}
    ensures forall other :: other != id ==> Granted(r, other) == Granted(ledger, other)
  {
    ledger[id := Granted(ledger, id) + {rank}]
  }

  /** The tests the scanning loops of grantRank, getCurrentRank, updateRank and removeRank apply to one rank. */
  datatype Criterion =
    | NamedExactly(name: string)        // rankConfig.name.equals(name)
    | NamedIgnoringCase(name: string)   // rankConfig.name.equalsIgnoreCase(name)
    | ReachedBy(playtime: int)          // playtime >= rankConfig.playtimeThreshold
    | Grantable(playtime: int, granted: set<string>)  // reached and not yet granted

  predicate Meets(r: RankConfig, c: Criterion)
  {
    match c
    case NamedExactly(n) => r.name == n
    case NamedIgnoringCase(n) => EqualsIgnoreCase(r.name, n)
    case ReachedBy(t) => t >= r.threshold
    case Grantable(t, g) => t >= r.threshold && r.name !in g
  }

  /** The index of the first rank at or after `from` that meets `c`, as a loop with an early exit finds it. */
  function FirstFrom(ranks: seq<RankConfig>, c: Criterion, from: nat): (r: Option<nat>)
    requires from <= |ranks|
    ensures r.Some? ==> from <= r.value < |ranks| && Meets(ranks[r.value], c)
    ensures r.Some? ==> forall j {:trigger Meets(ranks[j], c)} :: from <= j < r.value ==> !Meets(ranks[j], c)
    ensures r.None? ==> forall j {:trigger Meets(ranks[j], c)} :: from <= j < |ranks| ==> !Meets(ranks[j], c)
    decreases |ranks| - from
  {
    if from == |ranks| then None
    else if Meets(ranks[from], c) then Some(from)
    else FirstFrom(ranks, c, from + 1)
  }

  /** Rank k has the greatest threshold, and every rank before it a strictly smaller one. */
  ghost predicate IsFirstMax(ranks: seq<RankConfig>, k: nat)
  {
    && k < |ranks|
    && (forall j :: 0 <= j < |ranks| ==> ranks[j].threshold <= ranks[k].threshold)
    && (forall j :: 0 <= j < k ==> ranks[j].threshold < ranks[k].threshold)
  }

  /**
   * The index the loop of getMaxRank ends on: it replaces its candidate only
   * on a strictly greater threshold. Its accumulator starts at Long.MIN_VALUE,
   * below every Java int, so the first rank is always taken.
   */
  function MaxIndex(ranks: seq<RankConfig>): (k: nat)
    requires |ranks| > 0
    ensures IsFirstMax(ranks, k)
    decreases |ranks|
  {
    if |ranks| == 1 then 0
    else
      var k := MaxIndex(ranks[..|ranks| - 1]);
      if ranks[|ranks| - 1].threshold > ranks[k].threshold then |ranks| - 1 else k
  }

  /** getMaxRank: the name of the first rank with the greatest threshold, null for an empty list. */
  function MaxRank(ranks: seq<RankConfig>): (r: Option<string>)
    ensures r.None? <==> ranks == []
    ensures r.Some? ==> exists k: nat :: IsFirstMax(ranks, k) && r.value == ranks[k].name
  {
    if ranks == [] then None else Some(ranks[MaxIndex(ranks)].name)
  }

  /** The first rank with the greatest threshold is unique. */
  lemma FirstMaxIsUnique(ranks: seq<RankConfig>, k: nat, k': nat)
    requires IsFirstMax(ranks, k) && IsFirstMax(ranks, k')
    ensures k == k'
  {
    assert ranks[k].threshold == ranks[k'].threshold;
  }

  /** Some configured rank carries this group's name, ignoring case (the inner loop of getCurrentRank). */
  predicate NamesRank(ranks: seq<RankConfig>, group: string)
  {
    FirstFrom(ranks, NamedIgnoringCase(group), 0).Some?
  }

  /** The index of the first inherited group that names a configured rank. */
  function FirstRankGroup(groups: seq<string>, ranks: seq<RankConfig>, from: nat): (r: Option<nat>)
    requires from <= |groups|
    ensures r.Some? ==> from <= r.value < |groups| && NamesRank(ranks, groups[r.value])
    ensures r.Some? ==> forall j :: from <= j < r.value ==> !NamesRank(ranks, groups[j])
    ensures r.None? ==> forall j :: from <= j < |groups| ==> !NamesRank(ranks, groups[j])
    decreases |groups| - from
  {
    if from == |groups| then None
    else if NamesRank(ranks, groups[from]) then Some(from)
    else FirstRankGroup(groups, ranks, from + 1)
  }

  /**
   * getCurrentRank. `groups` are the player's inherited permission groups, or
   * None when the permission system has no user for the player. A group that
   * names a rank wins, and the group's own spelling is returned; otherwise the
   * first rank in list order whose threshold the stored playtime reaches.
   */
  function CurrentRank(groups: Option<seq<string>>, ranks: seq<RankConfig>, stored: nat): (r: Option<string>)
    ensures groups.None? ==> r.None?
    ensures groups.Some? && FirstRankGroup(groups.value, ranks, 0).Some? ==>
              r == Some(groups.value[FirstRankGroup(groups.value, ranks, 0).value])
    ensures groups.Some? && FirstRankGroup(groups.value, ranks, 0).None? ==>
              match FirstFrom(ranks, ReachedBy(stored), 0)
              case None => r.None?
              case Some(k) => r == Some(ranks[k].name)
  {
    match groups
    case None => None
    case Some(gs) =>
      match FirstRankGroup(gs, ranks, 0)
      case Some(g) => Some(gs[g])
      case None =>
        match FirstFrom(ranks, ReachedBy(stored), 0)
        case None => None
        case Some(k) => Some(ranks[k].name)
  }

  /** Some element of `groups` is literally in `excluded` (the loop of isPlayerExcluded). */
  function AnyExcluded(groups: seq<string>, excluded: seq<string>): (b: bool)
    ensures b <==> exists i :: 0 <= i < |groups| && groups[i] in excluded
  {
    if groups == [] then false
    else if groups[0] in excluded then true
    else
      assert forall i :: 1 <= i < |groups| ==> groups[i] == groups[1..][i - 1];
      AnyExcluded(groups[1..], excluded)
  }

  /**
   * isPlayerExcluded: false when no exclusions are configured (a null exclusions
   * object or list is the empty list here) or the user is unknown;
   * otherwise whether an inherited group is in the exclusion list.
   */
  function IsExcluded(excluded: seq<string>, groups: Option<seq<string>>): (b: bool)
    ensures b <==> excluded != [] && groups.Some? && exists i :: 0 <= i < |groups.value| && groups.value[i] in excluded
  {
    if excluded == [] then false
    else
      match groups
      case None => false
      case Some(gs) => AnyExcluded(gs, excluded)
  }

  /** The identity of an online player and what the permission system reports about them. */
  datatype Player = Player(id: string, name: string, groups: Option<seq<string>>)

  /**
   * The decision grantRank takes for one player: the index of the rank to
   * grant, or None. `playtime` is the value passed in, `stored` the value
   * getCurrentRank reads from the playtime map, `granted` the player's ledger.
   */
  function Decision(ranks: seq<RankConfig>, excluded: seq<string>, p: Player, playtime: nat, stored: nat,
                    granted: set<string>): (r: Option<nat>)
    ensures r.Some? ==> r.value < |ranks|
  {
    if IsExcluded(excluded, p.groups) then None
    else
      match CurrentRank(p.groups, ranks, stored)
      case None => None
      case Some(cur) =>
        var max := MaxRank(ranks);
        if max.Some? && EqualsIgnoreCase(cur, max.value) then None
        else
          match FirstFrom(ranks, NamedIgnoringCase(cur), 0)
          case None => None
          case Some(ci) => FirstFrom(ranks, Grantable(playtime, granted), ci + 1)
  }

  /** Each of the early exits of grantRank leaves the player without a promotion. */
  lemma NoPromotionCases(ranks: seq<RankConfig>, excluded: seq<string>, p: Player, playtime: nat, stored: nat,
                         granted: set<string>)
    ensures IsExcluded(excluded, p.groups) ==> Decision(ranks, excluded, p, playtime, stored, granted).None?
    ensures CurrentRank(p.groups, ranks, stored).None? ==> Decision(ranks, excluded, p, playtime, stored, granted).None?
    ensures var cur := CurrentRank(p.groups, ranks, stored);
            cur.Some? && MaxRank(ranks).Some? && EqualsIgnoreCase(cur.value, MaxRank(ranks).value) ==>
              Decision(ranks, excluded, p, playtime, stored, granted).None?
    ensures var cur := CurrentRank(p.groups, ranks, stored);
            cur.Some? && FirstFrom(ranks, NamedIgnoringCase(cur.value), 0).None? ==>
              Decision(ranks, excluded, p, playtime, stored, granted).None?
  {
  }

  /**
   * When grantRank promotes, the rank is the first one after the current
   * rank's position that the playtime reaches and the ledger does not hold;
   * every rank in between is either unreached or already granted.
   */
  lemma PromotionIsFirstEligible(ranks: seq<RankConfig>, excluded: seq<string>, p: Player, playtime: nat,
                                 stored: nat, granted: set<string>)
    requires Decision(ranks, excluded, p, playtime, stored, granted).Some?
    ensures var k := Decision(ranks, excluded, p, playtime, stored, granted).value;
            && !IsExcluded(excluded, p.groups)
            && CurrentRank(p.groups, ranks, stored).Some?
            && var cur := CurrentRank(p.groups, ranks, stored).value;
            && !EqualsIgnoreCase(cur, MaxRank(ranks).value)
            && FirstFrom(ranks, NamedIgnoringCase(cur), 0).Some?
            && var ci := FirstFrom(ranks, NamedIgnoringCase(cur), 0).value;
            && ci < k < |ranks|
            && playtime >= ranks[k].threshold
            && ranks[k].name !in granted
            && forall j :: ci < j < k ==> playtime < ranks[j].threshold || ranks[j].name in granted
  {
    var cur := CurrentRank(p.groups, ranks, stored).value;
    var ci := FirstFrom(ranks, NamedIgnoringCase(cur), 0).value;
    var k := FirstFrom(ranks, Grantable(playtime, granted), ci + 1).value;
    forall j | ci < j < k
      ensures playtime < ranks[j].threshold || ranks[j].name in granted
    {
      assert !Meets(ranks[j], Grantable(playtime, granted));
    }
  }

  /**
   * The converse: when none of the early exits of grantRank applies and
   * some rank after the current rank's position is reached and not yet in
   * the ledger, grantRank promotes, to that rank or an earlier eligible one.
   */
  lemma PromotionWhenEligible(ranks: seq<RankConfig>, excluded: seq<string>, p: Player, playtime: nat,
                              stored: nat, granted: set<string>, j: nat)
    requires !IsExcluded(excluded, p.groups)
    requires CurrentRank(p.groups, ranks, stored).Some?
    requires var cur := CurrentRank(p.groups, ranks, stored).value;
             && !(MaxRank(ranks).Some? && EqualsIgnoreCase(cur, MaxRank(ranks).value))
             && FirstFrom(ranks, NamedIgnoringCase(cur), 0).Some?
             && FirstFrom(ranks, NamedIgnoringCase(cur), 0).value < j < |ranks|
    requires playtime >= ranks[j].threshold && ranks[j].name !in granted
    ensures var d := Decision(ranks, excluded, p, playtime, stored, granted);
            d.Some? && d.value <= j
  {
    assert Meets(ranks[j], Grantable(playtime, granted));
  }

  /** A rank name already in the ledger is never granted again. */
  lemma NeverRegrants(ranks: seq<RankConfig>, excluded: seq<string>, p: Player, playtime: nat, stored: nat,
                      granted: set<string>)
    ensures var d := Decision(ranks, excluded, p, playtime, stored, granted);
            d.Some? ==> ranks[d.value].name !in granted
  {
    var d := Decision(ranks, excluded, p, playtime, stored, granted);
    if d.Some? {
      PromotionIsFirstEligible(ranks, excluded, p, playtime, stored, granted);
    }
  }

  /**
   * Running the decision again with the rank it granted added to the ledger
   * never grants a rank of that name a second time.
   */
  lemma {:induction false} SecondPassSkipsGrantedRank(ranks: seq<RankConfig>, excluded: seq<string>, p: Player,
                                                      playtime: nat, stored: nat, granted: set<string>)
    requires Decision(ranks, excluded, p, playtime, stored, granted).Some?
    ensures var name := ranks[Decision(ranks, excluded, p, playtime, stored, granted).value].name;
            var again := Decision(ranks, excluded, p, playtime, stored, granted + {name});
            again.Some? ==> ranks[again.value].name != name
  {
    var name := ranks[Decision(ranks, excluded, p, playtime, stored, granted).value].name;
    NeverRegrants(ranks, excluded, p, playtime, stored, granted + {name});
  }

  /**
   * The fallback of getCurrentRank picks the first reached rank in list order,
   * not the highest one: with the default ranks and 21600 seconds it still
   * answers "Newbie".
   */
  lemma DefaultRanksCurrentRank()
    ensures CurrentRank(Some([]), DefaultRanks, 0).None?
    ensures CurrentRank(Some([]), DefaultRanks, 3600) == Some("Newbie")
    ensures CurrentRank(Some([]), DefaultRanks, 21600) == Some("Newbie")
  {
    var r := DefaultRanks;
    assert Meets(r[0], ReachedBy(3600)) && Meets(r[0], ReachedBy(21600));
    assert !Meets(r[0], ReachedBy(0)) && !Meets(r[1], ReachedBy(0)) && !Meets(r[2], ReachedBy(0));
  }

  /** Of the default ranks, "Veteran" has the greatest threshold. */
  lemma DefaultRanksMaxRank()
    ensures MaxRank(DefaultRanks) == Some("Veteran")
  {
    assert IsFirstMax(DefaultRanks, 2);
    FirstMaxIsUnique(DefaultRanks, 2, MaxIndex(DefaultRanks));
  }

  /** With the default ranks and no groups, a player holds "Newbie" by the fallback once an hour is reached. */
  lemma DefaultRanksNewbie(playtime: nat)
    requires 3600 <= playtime
    ensures CurrentRank(Some([]), DefaultRanks, playtime) == Some("Newbie")
  {
    assert Meets(DefaultRanks[0], ReachedBy(playtime));
  }

  /**
   * A player without groups and with 10800 seconds holds "Newbie" by the
   * fallback and is offered "Regular"; one second short, nothing is granted.
   */
  lemma DefaultRanksPromotion()
    ensures Decision(DefaultRanks, [], Player("u", "Steve", Some([])), 10799, 10799, {}).None?
    ensures Decision(DefaultRanks, [], Player("u", "Steve", Some([])), 10800, 10800, {}) == Some(1)
  {
    var r := DefaultRanks;
    DefaultRanksNewbie(10799);
    DefaultRanksNewbie(10800);
    DefaultRanksMaxRank();
    assert !EqualsIgnoreCase("Newbie", "Veteran");
    assert Meets(r[0], NamedIgnoringCase("Newbie"));
    assert !Meets(r[1], Grantable(10799, {})) && !Meets(r[2], Grantable(10799, {}));
    assert Meets(r[1], Grantable(10800, {}));
  }

  /** With "Regular" already in the ledger, the same player is offered nothing. */
  lemma DefaultRanksNoRegrant()
    ensures Decision(DefaultRanks, [], Player("u", "Steve", Some([])), 10800, 10800, {"Regular"}).None?
  {
    var r := DefaultRanks;
    DefaultRanksNewbie(10800);
    DefaultRanksMaxRank();
    assert !EqualsIgnoreCase("Newbie", "Veteran");
    assert Meets(r[0], NamedIgnoringCase("Newbie"));
    assert !Meets(r[1], Grantable(10800, {"Regular"})) && !Meets(r[2], Grantable(10800, {"Regular"}));
  }

  // Rank-list administration

  /** The list with the entry at k taken out, the others kept in order (List.remove). */
  function RemoveAt(ranks: seq<RankConfig>, k: nat): (r: seq<RankConfig>)
    requires k < |ranks|
    ensures |r| == |ranks| - 1
    ensures forall j :: 0 <= j < k ==> r[j] == ranks[j]
    ensures forall j :: k <= j < |r| ==> r[j] == ranks[j + 1]
  {
    ranks[..k] + ranks[k + 1..]
  }

  /**
   * Adding a rank under a name not yet in the list and then removing that
   * name gives back the list as it was: the new entry is the first exact
   * match, and it sits at the end.
   */
  lemma RemoveUndoesAdd(ranks: seq<RankConfig>, name: string, threshold: Int32)
    requires FirstFrom(ranks, NamedExactly(name), 0).None?
    ensures FirstFrom(ranks + [RankConfig(name, threshold)], NamedExactly(name), 0) == Some(|ranks|)
    ensures RemoveAt(ranks + [RankConfig(name, threshold)], |ranks|) == ranks
  {
    var added := ranks + [RankConfig(name, threshold)];
    assert forall j :: 0 <= j < |ranks| ==> added[j] == ranks[j];
    assert Meets(added[|ranks|], NamedExactly(name));
    assert added[..|ranks|] == ranks;
  }

  /**
   * After the first exact match of oldName is rewritten, a lookup of the new
   * name finds that entry, unless an earlier entry already carried the new name.
   */
  lemma UpdatedEntryFoundByNewName(ranks: seq<RankConfig>, oldName: string, newName: string, threshold: Int32)
    requires FirstFrom(ranks, NamedExactly(oldName), 0).Some?
    ensures var k := FirstFrom(ranks, NamedExactly(oldName), 0).value;
            var updated := ranks[k := RankConfig(newName, threshold)];
            (forall j :: 0 <= j < k ==> ranks[j].name != newName) ==>
              FirstFrom(updated, NamedExactly(newName), 0) == Some(k)
  {
    var k := FirstFrom(ranks, NamedExactly(oldName), 0).value;
    var updated := ranks[k := RankConfig(newName, threshold)];
    assert Meets(updated[k], NamedExactly(newName));
    if forall j :: 0 <= j < k ==> ranks[j].name != newName {
      assert forall j :: 0 <= j < k ==> !Meets(updated[j], NamedExactly(newName));
    }
  }

  /** The line listRanks sends for one rank: the name after "- ", the threshold in seconds at the end. */
  function RankLine(r: RankConfig): (l: string)
    ensures |l| > |r.name| + 2 + 8
    ensures l[..|r.name| + 2] == "- " + r.name
    ensures l[|l| - 8..] == " seconds"
  {
    var l := "- " + r.name + " - Playtime Threshold: " + IntString(r.threshold) + " seconds";
    assert l[..|r.name| + 2] == "- " + r.name;
    l
  }

  /** Two lines for ranks of the same name differ exactly when the thresholds differ. */
  lemma RankLineShowsThreshold(a: RankConfig, b: RankConfig)
    requires a.name == b.name
    ensures RankLine(a) == RankLine(b) <==> a.threshold == b.threshold
  {
    if RankLine(a) == RankLine(b) {
      var prefix := "- " + a.name + " - Playtime Threshold: ";
      var ta, tb := IntString(a.threshold), IntString(b.threshold);
      assert RankLine(a) == prefix + ta + " seconds";
      assert RankLine(b) == prefix + tb + " seconds";
      assert |ta| == |tb|;
      assert ta == RankLine(a)[|prefix|..|prefix| + |ta|];
      assert tb == RankLine(b)[|prefix|..|prefix| + |tb|];
      IntStringInjective(a.threshold, b.threshold);
    }
  }
}
