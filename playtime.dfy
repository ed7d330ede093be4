/**
 * The playtime store: the map from player UUID to accumulated seconds, its
 * accrual by the fixed save interval, the line format of the playtime file
 * and the duration text shown to players.
 */
module Playtime {
  import opened Wrappers
  import opened Text
  import opened Ranks

  /** A player's UUID, by its canonical text form (UUID.toString). */
  type Uuid = string

  /** SAVE_INTERVAL_SECONDS: both the tick period and the amount credited per tick. */
  const SaveIntervalSeconds: nat := 15

  /** playerPlaytimes.getOrDefault(id, 0L). */
  function Get(m: map<Uuid, nat>, id: Uuid): nat
  {
    if id in m then m[id] else 0
  }

  /** The UUIDs of a list of players. */
  function IdsOf(players: seq<Player>): set<Uuid>
  {
    set p | p in players :: p.id
  }

  /** No two players of the list share a UUID (true of the server's player list). */
  predicate DistinctIds(players: seq<Player>)
  {
    forall i, j :: 0 <= i < j < |players| ==> DifferentIds(players, i, j)
  }

  /** The players at positions i and j carry different UUIDs. */
  predicate DifferentIds(players: seq<Player>, i: nat, j: nat)
    requires i < |players| && j < |players|
  {
    players[i].id != players[j].id
  }

  /**
   * One accrual step: every online player gains the save interval (an absent
   * entry counting as 0 and being created); every other entry is kept.
   */
  function Accrue(m: map<Uuid, nat>, online: set<Uuid>): (r: map<Uuid, nat>)
    ensures r.Keys == m.Keys + online
    ensures forall id :: id in online ==> r[id] == Get(m, id) + SaveIntervalSeconds
    ensures forall id :: id in m && id !in online ==> r[id] == m[id]
  {
    map id | id in m.Keys + online :: if id in online then Get(m, id) + SaveIntervalSeconds else m[id]
  }

  /** Crediting one more player who was not yet credited extends the accrual by that player. */
  lemma AccrueInsert(m: map<Uuid, nat>, online: set<Uuid>, id: Uuid)
    requires id !in online
    ensures Get(Accrue(m, online), id) == Get(m, id)
    ensures Accrue(m, online)[id := Get(m, id) + SaveIntervalSeconds] == Accrue(m, online + {id})
  {
    var l := Accrue(m, online)[id := Get(m, id) + SaveIntervalSeconds];
    var r := Accrue(m, online + {id});
    assert l.Keys == r.Keys;
    forall k | k in l.Keys
      ensures l[k] == r[k]
    {
    }
  }

  /** The store after n accrual steps with the same players online. */
  function AccrueTimes(m: map<Uuid, nat>, online: set<Uuid>, n: nat): map<Uuid, nat>
  {
    if n == 0 then m else Accrue(AccrueTimes(m, online, n - 1), online)
  }

  /** A player online for n steps has gained exactly n save intervals, nothing counted twice. */
  lemma {:induction false} AccrueTimesOnline(m: map<Uuid, nat>, online: set<Uuid>, n: nat, id: Uuid)
    requires id in online
    ensures id in AccrueTimes(m, online, n) || n == 0
    ensures Get(AccrueTimes(m, online, n), id) == Get(m, id) + n * SaveIntervalSeconds
  {
    if n > 0 {
      AccrueTimesOnline(m, online, n - 1, id);
    }
  }

  /** A player offline throughout keeps both the presence and the value of their entry. */
  lemma {:induction false} AccrueTimesOffline(m: map<Uuid, nat>, online: set<Uuid>, n: nat, id: Uuid)
    requires id !in online
    ensures id in AccrueTimes(m, online, n) <==> id in m
    ensures Get(AccrueTimes(m, online, n), id) == Get(m, id)
  {
    if n > 0 {
      AccrueTimesOffline(m, online, n - 1, id);
    }
  }

  // The playtime file

  /** One line of playtime.txt: the UUID, a comma and the seconds in decimal. */
  function Line(id: Uuid, seconds: nat): (l: string)
    ensures |l| > |id| + 1 && l[..|id|] == id && l[|id|] == ','
    ensures forall i :: |id| < i < |l| ==> IsDigit(l[i])
    ensures DigitsValue(l[|id| + 1..]) == seconds
  {
    var l := id + "," + NatString(seconds);
    assert l[..|id|] == id && l[|id| + 1..] == NatString(seconds);
    NatStringValue(seconds);
    l
  }

  /** A UUID without a comma can be read back from its line, and so can the seconds. */
  lemma LineDecomposes(id: Uuid, seconds: nat)
    requires ',' !in id
    ensures var l := Line(id, seconds);
            && |l| > |id| + 1
            && l[..|id|] == id
            && l[|id|] == ','
            && (forall i :: 0 <= i < |id| ==> l[i] != ',')
            && l[|id| + 1..] == NatString(seconds)
            && DigitsValue(l[|id| + 1..]) == seconds
  {
    var l := Line(id, seconds);
    assert l[..|id|] == id;
    assert l[|id| + 1..] == NatString(seconds);
    NatStringValue(seconds);
  }

  /** Distinct entries give distinct lines. */
  lemma LineInjective(a: Uuid, m: nat, b: Uuid, n: nat)
    requires ',' !in a && ',' !in b
    ensures Line(a, m) == Line(b, n) ==> a == b && m == n
  {
    if Line(a, m) == Line(b, n) {
      LineDecomposes(a, m);
      LineDecomposes(b, n);
      assert |a| == |b|;
      NatStringInjective(m, n);
    }
  }

  /** The lines written for the entries of `m`, in the order `order` visits them. */
  function Lines(order: seq<Uuid>, m: map<Uuid, nat>): (r: seq<string>)
    requires forall i :: 0 <= i < |order| ==> order[i] in m
    ensures |r| == |order|
    ensures forall i :: 0 <= i < |order| ==> r[i] == Line(order[i], m[order[i]])
    decreases |order|
  {
    if order == [] then []
    else Lines(order[..|order| - 1], m) + [Line(order[|order| - 1], m[order[|order| - 1]])]
  }

  /** `order` lists every key of the set once and nothing else (a HashMap's entry order). */
  ghost predicate IsEnumeration(order: seq<Uuid>, keys: set<Uuid>)
  {
    && (forall i, j :: 0 <= i < j < |order| ==> order[i] != order[j])
    && (forall id :: id in order <==> id in keys)
  }

  /** An enumeration has as many elements as the set it enumerates. */
  lemma {:induction false} EnumerationSize(order: seq<Uuid>, keys: set<Uuid>)
    requires IsEnumeration(order, keys)
    ensures |order| == |keys|
    decreases |order|
  {
    if order != [] {
      var last := order[|order| - 1];
      var rest := order[..|order| - 1];
      assert last in keys;
      forall id
        ensures id in rest <==> id in keys - {last}
      {
        if id in rest {
          var i :| 0 <= i < |rest| && rest[i] == id;
          assert order[i] == id && i < |order| - 1;
        }
        if id in keys - {last} {
          assert id in order;
          var i :| 0 <= i < |order| && order[i] == id;
          assert i != |order| - 1;
          assert rest[i] == id;
        }
      }
      EnumerationSize(rest, keys - {last});
    }
  }

  /**
   * The file written for an enumeration of the store has exactly one line
   * per entry: as many lines as entries, every entry's line present, every
   * line an entry's, and (for comma-free UUIDs) no line twice.
   */
  lemma SavedLinesDescribeStore(order: seq<Uuid>, m: map<Uuid, nat>)
    requires IsEnumeration(order, m.Keys)
    ensures |Lines(order, m)| == |m|
    ensures forall id :: id in m ==> Line(id, m[id]) in Lines(order, m)
    ensures forall i :: 0 <= i < |order| ==> Lines(order, m)[i] == Line(order[i], m[order[i]])
    ensures (forall id :: id in m ==> ',' !in id) ==>
              forall i, j :: 0 <= i < j < |order| ==> Lines(order, m)[i] != Lines(order, m)[j]
  {
    EnumerationSize(order, m.Keys);
    var lines := Lines(order, m);
    forall id | id in m
      ensures Line(id, m[id]) in lines
    {
      var i :| 0 <= i < |order| && order[i] == id;
      assert lines[i] == Line(id, m[id]);
    }
    if forall id :: id in m ==> ',' !in id {
      forall i, j | 0 <= i < j < |order|
        ensures lines[i] != lines[j]
      {
        LineInjective(order[i], m[order[i]], order[j], m[order[j]]);
      }
    }
  }

  // Duration text

  datatype Duration = Duration(hours: nat, minutes: nat, seconds: nat)

  /** The hours, minutes and seconds formatPlaytime computes by / and %. */
  function Breakdown(s: nat): (d: Duration)
    ensures d.hours * 3600 + d.minutes * 60 + d.seconds == s
    ensures d.minutes < 60 && d.seconds < 60
  {
    Duration(s / 3600, (s % 3600) / 60, s % 60)
  }

  /** The breakdown is the only one with minutes and seconds below 60. */
  lemma BreakdownUnique(s: nat, d: Duration)
    requires d.hours * 3600 + d.minutes * 60 + d.seconds == s
    requires d.minutes < 60 && d.seconds < 60
    ensures d == Breakdown(s)
  {
  }

  /** d splits s seconds into hours, minutes below 60 and seconds below 60. */
  predicate SplitsInto(s: nat, d: Duration)
  {
    d.hours * 3600 + d.minutes * 60 + d.seconds == s && d.minutes < 60 && d.seconds < 60
  }

  /**
   * formatPlaytime: "%d hours, %d minutes, %d seconds", filled with the one
   * split of the total into hours, minutes below 60 and seconds below 60.
   */
  function FormatPlaytime(s: nat): (r: string)
    ensures forall d :: SplitsInto(s, d) ==> r == DurationText(d)
  {
    assert forall d :: SplitsInto(s, d) ==> d == Breakdown(s) by {
      forall d | SplitsInto(s, d)
        ensures d == Breakdown(s)
      {
        BreakdownUnique(s, d);
      }
    }
    DurationText(Breakdown(s))
  }

  function DurationText(d: Duration): string
  {
    NatString(d.hours) + (" hours, " + (NatString(d.minutes) + (" minutes, " + (NatString(d.seconds) + " seconds"))))
  }

  /** The length of the run of decimal digits a string starts with. */
  function DigitRun(s: string): (n: nat)
    ensures n <= |s|
  {
    if s == [] || !IsDigit(s[0]) then 0 else 1 + DigitRun(s[1..])
  }

  /** Digits followed by a text that starts with a non-digit: the run ends where the digits do. */
  lemma {:induction false} DigitRunOfConcat(x: string, r: string)
    requires forall i :: 0 <= i < |x| ==> IsDigit(x[i])
    requires r != [] && !IsDigit(r[0])
    ensures DigitRun(x + r) == |x|
  {
    if x != [] {
      assert (x + r)[1..] == x[1..] + r;
      DigitRunOfConcat(x[1..], r);
    }
  }

  /** Two digit strings each followed by a text that starts with a non-digit split the same way. */
  lemma DigitsPrefixUnique(x: string, r: string, y: string, t: string)
    requires forall i :: 0 <= i < |x| ==> IsDigit(x[i])
    requires forall i :: 0 <= i < |y| ==> IsDigit(y[i])
    requires r != [] && !IsDigit(r[0]) && t != [] && !IsDigit(t[0])
    requires x + r == y + t
    ensures x == y && r == t
  {
    DigitRunOfConcat(x, r);
    DigitRunOfConcat(y, t);
    assert x == (x + r)[..|x|] && y == (y + t)[..|y|];
    assert r == (x + r)[|x|..] && t == (y + t)[|y|..];
  }

  /** Distinct playtimes are shown as distinct texts: the duration text loses nothing. */
  lemma FormatPlaytimeInjective(s: nat, s': nat)
    ensures FormatPlaytime(s) == FormatPlaytime(s') ==> s == s'
  {
    if FormatPlaytime(s) == FormatPlaytime(s') {
      DurationTextInjective(Breakdown(s), Breakdown(s'));
    }
  }

  /** The text names the hours, minutes and seconds it was made from. */
  lemma DurationTextInjective(d: Duration, d': Duration)
    requires DurationText(d) == DurationText(d')
    ensures d == d'
  {
    var hs, ms, ss := NatString(d.hours), NatString(d.minutes), NatString(d.seconds);
    var hs', ms', ss' := NatString(d'.hours), NatString(d'.minutes), NatString(d'.seconds);
    var tail, tail' := " minutes, " + (ss + " seconds"), " minutes, " + (ss' + " seconds");
    DigitsPrefixUnique(hs, " hours, " + (ms + tail), hs', " hours, " + (ms' + tail'));
    assert ms + tail == (" hours, " + (ms + tail))[8..];
    assert ms' + tail' == (" hours, " + (ms' + tail'))[8..];
    DigitsPrefixUnique(ms, tail, ms', tail');
    assert ss + " seconds" == tail[10..] && ss' + " seconds" == tail'[10..];
    DigitsPrefixUnique(ss, " seconds", ss', " seconds");
    NatStringInjective(d.hours, d'.hours);
    NatStringInjective(d.minutes, d'.minutes);
    NatStringInjective(d.seconds, d'.seconds);
  }

  // Playtime queries

  /** The profile the user cache finds for a player name. */
  datatype Profile = Profile(id: Uuid, name: string)

  /** An argument of Map.getOrDefault(Object, V), which accepts keys of any class. */
  datatype LookupKey = ByUuid(id: Uuid) | ByProfile(profile: Option<Profile>)

  /** getOrDefault(key, 0L): a key that is not a UUID never equals a UUID key of the map. */
  function GetOrDefault(m: map<Uuid, nat>, key: LookupKey): nat
  {
    match key
    case ByUuid(id) => Get(m, id)
    case ByProfile(_) => 0
  }

  /** The seconds viewPlayerPlaytime reports, as written: it looks the Optional<GameProfile> up. */
  function ReportedPlaytime(m: map<Uuid, nat>, found: Option<Profile>): nat
  {
    GetOrDefault(m, ByProfile(found))
  }

  /** As written, a player with an hour on record is reported with 0 seconds. */
  lemma ReportedPlaytimeIgnoresStore()
    ensures var m := map["0b3c-steve" := 3600];
            Get(m, "0b3c-steve") == 3600 && ReportedPlaytime(m, Some(Profile("0b3c-steve", "Steve"))) == 0
  {
  }

  /** The seconds viewPlayerPlaytime evidently means to report: those stored under the profile's UUID. */
  function ReportedPlaytimeIntended(m: map<Uuid, nat>, found: Profile): (n: nat)
    ensures found.id in m ==> n == m[found.id]
    ensures found.id !in m ==> n == 0
  {
    GetOrDefault(m, ByUuid(found.id))
  }

  /** The reply to /playtime. */
  function OwnPlaytimeMessage(seconds: nat): string
  {
    "Your total playtime: " + FormatPlaytime(seconds)
  }

  /** The reply to /playtime <player>. */
  function PlayerPlaytimeMessage(name: string, seconds: nat): string
  {
    name + "'s total playtime: " + FormatPlaytime(seconds)
  }
}
