/** A live game-state snapshot as the online extractor reads it, and the
    feature helpers that read one snapshot. Every field the extractor reads
    with a default is an `Option`; a missing `map`, `allplayers` or `player`
    block is the empty block. */
module Gsi {
  import opened Wrappers
  import opened Features
  import opened Seqs

  datatype GsiPlayer = GsiPlayer(
    team: Option<int>,
    team2: Option<int>,
    alive: Option<bool>,
    netWorth: Option<int>,
    gold: Option<int>)

  datatype Building = Building(name: Option<string>, health: Option<int>)

  datatype MapBlock = MapBlock(
    radiantGoldAdv: Option<int>,
    radiantXpAdv: Option<int>,
    roshanState: Option<string>,
    buildings: Option<seq<Building>>)

  datatype PlayerBlock = PlayerBlock(team: Option<int>)

  /** One `allplayers` item: the player's key and its record. */
  type Entry = (string, GsiPlayer)

  function Sids(r: seq<Entry>): (ids: seq<string>)
    ensures |ids| == |r|
    ensures forall i | 0 <= i < |r| :: ids[i] == r[i].0
  {
    seq(|r|, i requires 0 <= i < |r| => r[i].0)
  }

  /** `allplayers` is a JSON object: its keys are distinct, its items come
      in document order. */
  type Roster = r: seq<Entry> | Distinct(Sids(r)) witness []

  datatype Snapshot = Snapshot(mapBlock: MapBlock, allplayers: Roster, player: PlayerBlock)

  // ---------------------------------------------------------------------
  // Per-player fields

  /** `team or team2 or 0`: a missing or zero `team` falls through to
      `team2`, and a missing or zero `team2` to 0. */
  function TeamOf(p: GsiPlayer): (t: int)
    ensures p.team.Some? && p.team.value != 0 ==> t == p.team.value
    ensures (p.team.None? || p.team.value == 0) && p.team2.Some? ==> t == p.team2.value
    ensures (p.team.None? || p.team.value == 0) && p.team2.None? ==> t == 0
  {
    if p.team.Some? && p.team.value != 0 then p.team.value
    else if p.team2.Some? && p.team2.value != 0 then p.team2.value
    else 0
  }

  /** Team 2 is Radiant; every other team value, 0 included, is not. */
  predicate IsRadiant(p: GsiPlayer) {
    TeamOf(p) == 2
  }

  /** `net_worth`, else `gold`, else 0. */
  function NetWorth(p: GsiPlayer): int {
    match p.netWorth
    case Some(w) => w
    case None => p.gold.GetOr(0)
  }

  /** `alive`, which a player record without it has as true. */
  function AliveOf(p: GsiPlayer): bool {
    p.alive.GetOr(true)
  }

  // ---------------------------------------------------------------------
  // Gold and experience advantage

  /** Net worth summed over the players that are (or are not) Radiant. */
  function TeamWorth(r: seq<Entry>, radiant: bool): int {
    if r == [] then 0
    else
      var p := r[|r| - 1].1;
      TeamWorth(r[..|r| - 1], radiant) + (if IsRadiant(p) == radiant then NetWorth(p) else 0)
  }

  /** The advantage `gold_adv` reports: the map's own field when present,
      else Radiant net worth minus everybody else's. */
  function LiveGoldAdv(m: MapBlock, r: seq<Entry>): int {
    match m.radiantGoldAdv
    case Some(a) => a
    case None => TeamWorth(r, true) - TeamWorth(r, false)
  }

  /** `gold_adv`: the loop that adds every player's net worth, counted
      positive for team 2 and negative for every other team. */
  method GoldAdv(g: Snapshot) returns (adv: int)
    ensures g.mapBlock.radiantGoldAdv.Some? ==> adv == g.mapBlock.radiantGoldAdv.value
    ensures g.mapBlock.radiantGoldAdv.None? ==>
      adv == TeamWorth(g.allplayers, true) - TeamWorth(g.allplayers, false)
    ensures adv == LiveGoldAdv(g.mapBlock, g.allplayers)
  {
    if g.mapBlock.radiantGoldAdv.Some? {
      return g.mapBlock.radiantGoldAdv.value;
    }
    var r := g.allplayers;
    adv := 0;
    for k := 0 to |r|
      invariant adv == TeamWorth(r[..k], true) - TeamWorth(r[..k], false)
    {
      var p := r[k].1;
      var side := if TeamOf(p) == 2 then 1 else -1;
      adv := adv + NetWorth(p) * side;
      assert r[..k + 1][..k] == r[..k];
    }
    assert r[..|r|] == r;
  }

  /** `xp_adv`: the map's `radiant_xp_adv`, 0 when absent. */
  function XpAdv(m: MapBlock): (x: int)
    ensures m.radiantXpAdv.Some? ==> x == m.radiantXpAdv.value
    ensures m.radiantXpAdv.None? ==> x == 0
  {
    m.radiantXpAdv.GetOr(0)
  }

  // ---------------------------------------------------------------------
  // Roshan and tier-3 towers

  /** `roshan_alive`: 1 exactly when the map reports the state "alive". */
  function RoshanAlive(m: MapBlock): (r: int)
    ensures r == 0 || r == 1
    ensures r == 1 <==> m.roshanState == Some("alive")
  {
    if m.roshanState.GetOr("") == "alive" then 1 else 0
  }

  /** `sub` occurs in `s` at position `i`. */
  predicate At(s: string, sub: string, i: nat) {
    i + |sub| <= |s| && s[i..i + |sub|] == sub
  }

  lemma AtShift(s: string, sub: string, i: nat)
    requires s != []
    ensures At(s[1..], sub, i) <==> At(s, sub, i + 1)
  {
    if i + 1 + |sub| <= |s| {
      assert s[1..][i..i + |sub|] == s[i + 1..i + 1 + |sub|];
    }
  }

  /** Python's `sub in s` for strings. */
  function Contains(s: string, sub: string): (b: bool)
    ensures b <==> exists i: nat :: At(s, sub, i)
    decreases |s|
  {
    if |s| < |sub| then false
    else if s[..|sub|] == sub then
      assert At(s, sub, 0);
      true
    else
      var b := Contains(s[1..], sub);
      if b then
        var i: nat :| At(s[1..], sub, i);
        AtShift(s, sub, i);
        true
      else
        forall i: nat | At(s, sub, i) ensures false {
          if i > 0 {
            AtShift(s, sub, i - 1);
          }
        }
        false
  }

  const Tower3Marker: string := "_tower3_"

  function Buildings(m: MapBlock): seq<Building> {
    m.buildings.GetOr([])
  }

  /** A building named like a tier-3 tower; a building without a name has "". */
  predicate IsTower3(b: Building) {
    Contains(b.name.GetOr(""), Tower3Marker)
  }

  /** A building without a `health` counts as standing with health 1. */
  function Health(b: Building): int {
    b.health.GetOr(1)
  }

  /** The tier-3 towers among `bs`, in order. */
  function Tower3s(bs: seq<Building>): (t3: seq<Building>)
    ensures forall b :: b in t3 <==> b in bs && IsTower3(b)
  {
    if bs == [] then []
    else (if IsTower3(bs[0]) then [bs[0]] else []) + Tower3s(bs[1..])
  }

  /** `towers_dire_t3_down`. */
  function TowersDireT3Down(m: MapBlock): (r: int)
    ensures r == 0 || r == 1
    ensures r == 1 <==>
      && (exists b | b in Buildings(m) :: IsTower3(b))
      && (forall b | b in Buildings(m) && IsTower3(b) :: Health(b) == 0)
  {
    var t3 := Tower3s(Buildings(m));
    assert t3 != [] ==> t3[0] in t3;
    if t3 == [] then 0
    else if forall b | b in t3 :: Health(b) == 0 then 1
    else 0
  }

  /** The marker may stand anywhere in the name; a building without a
      name is no tier-3 tower. */
  lemma Tower3NameExample()
    ensures IsTower3(Building(Some("dota_badguys_tower3_top"), Some(0)))
    ensures !IsTower3(Building(None, Some(0)))
  {
    assert At("dota_badguys_tower3_top", Tower3Marker, 12);
  }

  /** `player.team`, 2 when the snapshot has none: the team the live
      extractor calls "ours". */
  function MyTeam(pb: PlayerBlock): (t: int)
    ensures pb.team.Some? ==> t == pb.team.value
    ensures pb.team.None? ==> t == 2
  {
    pb.team.GetOr(2)
  }

  // ---------------------------------------------------------------------
  // Live cores: the two players of each side with the most net worth

  /** One `(net_worth, sid)` pair of `core_ids`. */
  datatype Ranked = Ranked(nw: int, sid: string)

  /** Python's `a <= b` on strings: code point by code point, a prefix
      first. */
  predicate StrLe(a: string, b: string) {
    if a == [] then true
    else if b == [] then false
    else if a[0] != b[0] then a[0] < b[0]
    else StrLe(a[1..], b[1..])
  }

  lemma {:induction false} StrLeTotal(a: string, b: string)
    ensures StrLe(a, b) || StrLe(b, a)
  {
    if a != [] && b != [] && a[0] == b[0] {
      StrLeTotal(a[1..], b[1..]);
    }
  }

  lemma {:induction false} StrLeTrans(a: string, b: string, c: string)
    requires StrLe(a, b) && StrLe(b, c)
    ensures StrLe(a, c)
  {
    if a != [] && b != [] && c != [] && a[0] == b[0] && b[0] == c[0] {
      StrLeTrans(a[1..], b[1..], c[1..]);
    }
  }

  lemma {:induction false} StrLeAntisymmetric(a: string, b: string)
    requires StrLe(a, b) && StrLe(b, a)
    ensures a == b
  {
    if a != [] && b != [] {
      StrLeAntisymmetric(a[1..], b[1..]);
      assert a == [a[0]] + a[1..] && b == [b[0]] + b[1..];
    }
  }

  /** Tuple order `(a.nw, a.sid) >= (b.nw, b.sid)`. */
  predicate AtLeast(a: Ranked, b: Ranked) {
    a.nw > b.nw || (a.nw == b.nw && StrLe(b.sid, a.sid))
  }

  lemma AtLeastTotal(a: Ranked, b: Ranked)
    ensures AtLeast(a, b) || AtLeast(b, a)
  {
    StrLeTotal(a.sid, b.sid);
  }

  lemma AtLeastTrans(a: Ranked, b: Ranked, c: Ranked)
    requires AtLeast(a, b) && AtLeast(b, c)
    ensures AtLeast(a, c)
  {
    if a.nw == b.nw && b.nw == c.nw {
      StrLeTrans(c.sid, b.sid, a.sid);
    }
  }

  /** Two pairs each at least the other are the same pair. */
  lemma AtLeastAntisymmetric(a: Ranked, b: Ranked)
    requires AtLeast(a, b) && AtLeast(b, a)
    ensures a == b
  {
    StrLeAntisymmetric(a.sid, b.sid);
  }

  ghost predicate Descending(s: seq<Ranked>) {
    forall i, j | 0 <= i < j < |s| :: AtLeast(s[i], s[j])
  }

  /** Insertion of `x` before the first pair it is at least. */
  function InsertRanked(x: Ranked, s: seq<Ranked>): (r: seq<Ranked>)
    ensures multiset(r) == multiset(s) + multiset{x}
    ensures |r| == |s| + 1
  {
    if s == [] then [x]
    else if AtLeast(x, s[0]) then [x] + s
    else
      assert s == [s[0]] + s[1..];
      [s[0]] + InsertRanked(x, s[1..])
  }

  lemma InsertRankedMembers(x: Ranked, s: seq<Ranked>, q: Ranked)
    requires q in InsertRanked(x, s)
    ensures q == x || q in s
  {
    assert q in multiset(InsertRanked(x, s));
  }

  lemma {:induction false} InsertKeepsDescending(x: Ranked, s: seq<Ranked>)
    requires Descending(s)
    ensures Descending(InsertRanked(x, s))
  {
    if s == [] {
    } else if AtLeast(x, s[0]) {
      var r := [x] + s;
      forall j | 1 <= j < |r| ensures AtLeast(x, r[j]) {
        if j > 1 {
          AtLeastTrans(x, s[0], s[j - 1]);
        }
      }
    } else {
      AtLeastTotal(x, s[0]);
      var rest := InsertRanked(x, s[1..]);
      InsertKeepsDescending(x, s[1..]);
      forall j | 0 <= j < |rest| ensures AtLeast(s[0], rest[j]) {
        InsertRankedMembers(x, s[1..], rest[j]);
      }
      var r := [s[0]] + rest;
      assert forall j | 0 < j < |r| :: r[j] == rest[j - 1];
    }
  }

  /** `sorted(pairs, reverse=True)`. */
  function SortRanked(l: seq<Ranked>): (r: seq<Ranked>)
    ensures multiset(r) == multiset(l)
    ensures |r| == |l|
    ensures Descending(r)
  {
    if l == [] then []
    else
      var init := l[..|l| - 1];
      assert l == init + [l[|l| - 1]];
      var sorted := SortRanked(init);
      InsertKeepsDescending(l[|l| - 1], sorted);
      InsertRanked(l[|l| - 1], sorted)
  }

  /** `sorted(pairs, reverse=True)[:n]`: `min(n, |l|)` of the pairs, in
      descending order, each at least every pair left out. */
  function TopRanked(l: seq<Ranked>, n: nat): (t: seq<Ranked>)
    ensures |t| == Min(n, |l|)
    ensures multiset(t) <= multiset(l)
    ensures Descending(t)
    ensures forall a, b | a in t && b in multiset(l) - multiset(t) :: AtLeast(a, b)
  {
    var s := SortRanked(l);
    var k := Min(n, |s|);
    DescendingPrefix(s, k);
    SplitMultiset(s, k);
    PrefixAtLeastSuffix(s, k);
    s[..k]
  }

  lemma DescendingPrefix(s: seq<Ranked>, k: nat)
    requires Descending(s) && k <= |s|
    ensures Descending(s[..k])
  {
    forall i, j | 0 <= i < j < k ensures AtLeast(s[..k][i], s[..k][j]) {
      assert s[..k][i] == s[i] && s[..k][j] == s[j];
    }
  }

  /** In a descending list, every pair of a prefix is at least every pair
      after it. */
  lemma PrefixAtLeastSuffix(s: seq<Ranked>, k: nat)
    requires Descending(s) && k <= |s|
    ensures forall a, b | a in s[..k] && b in multiset(s[k..]) :: AtLeast(a, b)
  {
    forall a, b | a in s[..k] && b in multiset(s[k..])
      ensures AtLeast(a, b)
    {
      var j :| k <= j < |s| && s[j] == b by { assert b in s[k..]; }
      var i :| 0 <= i < k && s[i] == a;
    }
  }

  function SidsOf(t: seq<Ranked>): (ids: seq<string>)
    ensures |ids| == |t|
    ensures forall i | 0 <= i < |t| :: ids[i] == t[i].sid
  {
    seq(|t|, i requires 0 <= i < |t| => t[i].sid)
  }

  /** The `(net_worth, sid)` pairs of one side, in roster order. */
  function RankedSide(r: seq<Entry>, radiant: bool): (l: seq<Ranked>)
    ensures forall x :: x in l <==>
      exists i | 0 <= i < |r| :: IsRadiant(r[i].1) == radiant && x == Ranked(NetWorth(r[i].1), r[i].0)
  {
    if r == [] then []
    else
      var init := r[..|r| - 1];
      var e := r[|r| - 1];
      var l := RankedSide(init, radiant) + (if IsRadiant(e.1) == radiant then [Ranked(NetWorth(e.1), e.0)] else []);
      assert forall i | 0 <= i < |init| :: init[i] == r[i];
      l
  }

  /** `core_ids(gsi, n)`: the keys of the `n` Radiant and `n` non-Radiant
      players ranked first by `(net_worth, sid)`. */
  datatype LiveCores = LiveCores(radiant: seq<string>, dire: seq<string>)

  function TopCores(r: seq<Entry>, n: nat): LiveCores {
    LiveCores(SidsOf(TopRanked(RankedSide(r, true), n)), SidsOf(TopRanked(RankedSide(r, false), n)))
  }

  /** Each side has at most `n` live cores. */
  lemma TopCoresLength(r: seq<Entry>, n: nat)
    ensures |TopCores(r, n).radiant| <= n && |TopCores(r, n).dire| <= n
  {
    var rad := TopRanked(RankedSide(r, true), n);
    var dire := TopRanked(RankedSide(r, false), n);
    assert |rad| <= n && |dire| <= n;
  }

  method CoreIds(g: Snapshot, n: nat) returns (c: LiveCores)
    ensures c == TopCores(g.allplayers, n)
  {
    var r := g.allplayers;
    var rad: seq<Ranked> := [];
    var dire: seq<Ranked> := [];
    for k := 0 to |r|
      invariant rad == RankedSide(r[..k], true)
      invariant dire == RankedSide(r[..k], false)
    {
      var (sid, p) := r[k];
      var t := TeamOf(p);
      var nw := NetWorth(p);
      if t == 2 {
        rad := rad + [Ranked(nw, sid)];
      } else {
        dire := dire + [Ranked(nw, sid)];
      }
      assert r[..k + 1][..k] == r[..k];
    }
    assert r[..|r|] == r;
    c := LiveCores(SidsOf(TopRanked(rad, n)), SidsOf(TopRanked(dire, n)));
  }

  /** The live cores of a side: at most `n` keys, each the key of a player
      of that side, and a chosen player outranks every player of the side
      left out. */
  lemma CoresOfSide(r: seq<Entry>, n: nat, radiant: bool, i: nat)
    requires i < |r| && IsRadiant(r[i].1) == radiant
    ensures var top := TopRanked(RankedSide(r, radiant), n);
      && |top| <= n
      && (forall a | a in top :: exists j | 0 <= j < |r| ::
            IsRadiant(r[j].1) == radiant && a == Ranked(NetWorth(r[j].1), r[j].0))
      && (Ranked(NetWorth(r[i].1), r[i].0) !in top ==>
            forall a | a in top :: AtLeast(a, Ranked(NetWorth(r[i].1), r[i].0)))
  {
    var side := RankedSide(r, radiant);
    var top := TopRanked(side, n);
    var x := Ranked(NetWorth(r[i].1), r[i].0);
    assert x in side;
    forall a | a in top
      ensures a in side
    {
      assert a in multiset(side);
    }
    if x !in top {
      assert x in multiset(side) - multiset(top) by {
        assert multiset(top)[x] == 0;
      }
    }
  }

  /** A player whose team is missing or 0 is ranked with the non-Radiant
      side and not with Radiant. */
  lemma NoTeamIsDire(r: Roster, i: nat)
    requires i < |r| && r[i].1.team.GetOr(0) == 0 && r[i].1.team2.GetOr(0) == 0
    ensures Ranked(NetWorth(r[i].1), r[i].0) in RankedSide(r, false)
    ensures Ranked(NetWorth(r[i].1), r[i].0) !in RankedSide(r, true)
  {
    forall j | 0 <= j < |r| && IsRadiant(r[j].1)
      ensures r[j].0 != r[i].0
    {
      assert j != i;
      assert Sids(r)[j] != Sids(r)[i];
    }
  }
}
